/** The string handling that the login dialogue of cmd/muhan-server/login.go
    relies on. */
module LoginText {

  /** unicode.IsSpace */
  predicate IsSpace(c: char) {
    var n := c as int;
    9 <= n <= 13 || n == 32 || n == 0x85 || n == 0xA0 || n == 0x1680 || 0x2000 <= n <= 0x200A
    || n == 0x2028 || n == 0x2029 || n == 0x202F || n == 0x205F || n == 0x3000
  }

  function TrimLeft(s: string): (r: string)
    ensures r == [] || !IsSpace(r[0])
    ensures |r| <= |s| && r == s[|s| - |r|..]
  {
    if s != [] && IsSpace(s[0]) then TrimLeft(s[1..]) else s
  }

  function TrimRight(s: string): (r: string)
    ensures r <= s
    ensures r == [] || !IsSpace(r[|r| - 1])
    ensures s != [] && !IsSpace(s[0]) ==> r != []
  {
    if s != [] && IsSpace(s[|s| - 1]) then TrimRight(s[..|s| - 1]) else s
  }

  /** strings.TrimSpace */
  function Trim(s: string): (r: string)
    ensures r == [] || (!IsSpace(r[0]) && !IsSpace(r[|r| - 1]))
  {
    TrimRight(TrimLeft(s))
  }

  lemma TrimTwice(s: string)
    ensures Trim(Trim(s)) == Trim(s)
  {
    hide IsSpace;
    var t := Trim(s);
    assert TrimLeft(t) == t && TrimRight(t) == t;
  }

  lemma TrimNothing(s: string)
    requires s == [] || (!IsSpace(s[0]) && !IsSpace(s[|s| - 1]))
    ensures Trim(s) == s
  {
    hide IsSpace;
  }

  predicate AllSpace(s: string) { forall i :: 0 <= i < |s| ==> IsSpace(s[i]) }

  /** Trimming takes away spaces at both ends and nothing else. */
  lemma TrimExact(s: string) returns (a: string, b: string)
    ensures s == a + Trim(s) + b && AllSpace(a) && AllSpace(b)
    ensures Trim(s) == [] || (!IsSpace(Trim(s)[0]) && !IsSpace(Trim(s)[|Trim(s)| - 1]))
  {
    hide IsSpace, AllSpace, TrimLeft, TrimRight;
    var t := TrimLeft(s);
    a, b := s[..|s| - |t|], t[|TrimRight(t)|..];
    LeftSpaces(s);
    RightSpaces(t);
    assert s == a + t && t == TrimRight(t) + b;
    assert a + (TrimRight(t) + b) == a + TrimRight(t) + b;
  }

  lemma {:induction false} LeftSpaces(s: string)
    ensures AllSpace(s[..|s| - |TrimLeft(s)|])
  {
    hide IsSpace, AllSpace, TrimLeft;
    TrimLeftStep(s);
    if s != [] && IsSpace(s[0]) {
      LeftSpaces(s[1..]);
      SpaceBefore(s, |s| - |TrimLeft(s)|);
    } else {
      NoSpace();
      assert s[..0] == [];
    }
  }

  lemma TrimLeftStep(s: string)
    ensures TrimLeft(s) == if s != [] && IsSpace(s[0]) then TrimLeft(s[1..]) else s
  {
    hide IsSpace;
  }

  lemma SpaceBefore(s: string, n: nat)
    requires 0 < n <= |s| && IsSpace(s[0]) && AllSpace(s[1..][..n - 1])
    ensures AllSpace(s[..n])
  {
    hide IsSpace, AllSpace;
    MoreSpace([s[0]], s[1..][..n - 1]);
    assert s[..n] == [s[0]] + s[1..][..n - 1];
  }

  lemma {:induction false} RightSpaces(s: string)
    ensures AllSpace(s[|TrimRight(s)|..])
  {
    hide IsSpace, AllSpace;
    if s != [] && IsSpace(s[|s| - 1]) {
      var m, n := |s| - 1, |TrimRight(s)|;
      RightSpaces(s[..m]);
      MoreSpace(s[..m][n..], [s[m]]);
      assert s[n..] == s[..m][n..] + [s[m]];
    } else {
      NoSpace();
      assert s[|s|..] == [];
    }
  }

  lemma NoSpace()
    ensures AllSpace([])
  {
  }

  lemma MoreSpace(a: string, b: string)
    requires (|a| == 1 && IsSpace(a[0]) && AllSpace(b)) || (AllSpace(a) && |b| == 1 && IsSpace(b[0]))
    ensures AllSpace(a + b)
  {
    hide IsSpace;
  }

  /** strings.Fields */
  function Fields(s: string): seq<string>
    decreases |s|
  {
    var t := TrimLeft(s);
    if t == [] then [] else
      var n := WordEnd(t);
      [t[..n]] + Fields(t[n..])
  }

  function WordEnd(t: string): (n: nat)
    requires t != [] && !IsSpace(t[0])
    ensures 0 < n <= |t|
  {
    if |t| == 1 || IsSpace(t[1]) then 1 else 1 + WordEnd(t[1..])
  }

  predicate IsDigit(c: char) { '0' <= c <= '9' }

  function Digits(s: string): int
    requires forall i :: 0 <= i < |s| ==> IsDigit(s[i])
  {
    if s == [] then 0 else 10 * Digits(s[..|s| - 1]) + (s[|s| - 1] as int - '0' as int)
  }

  /** strconv.Atoi, with 0 for what it rejects: bad syntax or beyond 64 bits. */
  function AtoiOrZero(s: string): int {
    var signed := s != [] && (s[0] == '+' || s[0] == '-');
    var d := if signed then s[1..] else s;
    if d == [] || !(forall i :: 0 <= i < |d| ==> IsDigit(d[i])) then 0 else
      var n := if signed && s[0] == '-' then -Digits(d) else Digits(d);
      if -0x8000_0000_0000_0000 <= n < 0x8000_0000_0000_0000 then n else 0
  }

  predicate HasPrefix(s: string, p: string) { p <= s }

  /** krtext.IsAllHangulSyllables */
  predicate AllHangul(s: string) {
    forall i :: 0 <= i < |s| ==> '\U{AC00}' <= s[i] <= '\U{D7A3}'
  }
}
