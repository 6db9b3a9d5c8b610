/** The hand-written C lexers of internal/commandspec/extract/extract.go. */
module CSource {

  /** Inside a literal, and whether the next character is escaped; or in code. */
  datatype Mode = Code | Str(escaped: bool) | Chr(escaped: bool)

  const QUOTE: char := '\"'
  const TICK: char := '\''
  const BACKSLASH: char := '\\'
  const NEWLINE: char := '\n'

  /** The mode after a character that is not part of a comment. */
  function After(m: Mode, c: char): Mode {
    match m
    case Code => if c == QUOTE then Str(false) else if c == TICK then Chr(false) else Code
    case Str(e) => if e then Str(false) else if c == BACKSLASH then Str(true) else if c == QUOTE then Code else m
    case Chr(e) => if e then Chr(false) else if c == BACKSLASH then Chr(true) else if c == TICK then Code else m
  }

  function Count(c: char, s: string): nat {
    if s == [] then 0 else (if s[0] == c then 1 else 0) + Count(c, s[1..])
  }

  // ----- comments -----

  predicate LineComment(s: string) { |s| >= 2 && s[0] == '/' && s[1] == '/' }
  predicate BlockComment(s: string) { |s| >= 2 && s[0] == '/' && s[1] == '*' }

  /** Where a line comment ends: at its newline or at the end of the text. */
  function LineEnd(s: string): (n: nat)
    ensures n <= |s|
    ensures n < |s| ==> s[n] == NEWLINE
    ensures Count(NEWLINE, s[..n]) == 0
  {
    if s == [] || s[0] == NEWLINE then 0 else
      var n := 1 + LineEnd(s[1..]);
      assert s[..n][1..] == s[1..][..n - 1];
      n
  }

  /** The length of a block comment's inside with its closing mark. */
  function BlockEnd(s: string): (n: nat)
    ensures n <= |s|
  {
    if s == [] then 0
    else if s[0] == '*' && |s| > 1 && s[1] == '/' then 2
    else 1 + BlockEnd(s[1..])
  }

  function Newlines(n: nat): string {
    if n == 0 then [] else [NEWLINE] + Newlines(n - 1)
  }

  /** `stripCComments` from a given mode on: a comment leaves just its newlines. */
  function Strip(m: Mode, s: string): string
    decreases |s|
  {
    if s == [] then []
    else if m == Code && LineComment(s) then
      var n := 2 + LineEnd(s[2..]);
      if n < |s| then [NEWLINE] + Strip(Code, s[n + 1..]) else []
    else if m == Code && BlockComment(s) then
      var n := 2 + BlockEnd(s[2..]);
      Newlines(Count(NEWLINE, s[..n])) + Strip(Code, s[n..])
    else [s[0]] + Strip(After(m, s[0]), s[1..])
  }

  predicate MarkAt(s: string, k: nat) { k + 1 < |s| && s[k] == '*' && s[k + 1] == '/' }

  /** Where the first closing mark of a block comment is; the end if there is none. */
  function FirstMark(s: string): (k: nat)
    ensures k <= |s| && (k < |s| ==> MarkAt(s, k))
    ensures forall j :: 0 <= j < k ==> !MarkAt(s, j)
  {
    if s == [] || MarkAt(s, 0) then 0 else
      var k := 1 + FirstMark(s[1..]);
      assert forall j :: 0 < j < |s| ==> MarkAt(s, j) == MarkAt(s[1..], j - 1);
      k
  }

  /** What is left of a text behind a block comment's opening mark. */
  function BehindMark(s: string): string {
    var k := FirstMark(s);
    if k < |s| then s[k + 2..] else []
  }

  /** The program's search ends behind the first closing mark. */
  lemma {:induction false} BlockEndsAtMark(s: string)
    ensures BlockEnd(s) == if FirstMark(s) < |s| then FirstMark(s) + 2 else |s|
    ensures s[BlockEnd(s)..] == BehindMark(s)
  {
    if s != [] && !MarkAt(s, 0) {
      BlockEndsAtMark(s[1..]);
    }
  }

  /** The characters of the text that belong to string and character literals. */
  function Literals(m: Mode, s: string): string
    decreases |s|
  {
    if s == [] then []
    else if m == Code && LineComment(s) then Literals(Code, s[2 + LineEnd(s[2..])..])
    else if m == Code && BlockComment(s) then Literals(Code, BehindMark(s[2..]))
    else (if m == Code && After(m, s[0]) == Code then [] else [s[0]]) + Literals(After(m, s[0]), s[1..])
  }

  lemma {:induction false} CountAppend(c: char, a: string, b: string)
    ensures Count(c, a + b) == Count(c, a) + Count(c, b)
  {
    if a == [] {
      assert a + b == b;
    } else {
      assert (a + b)[1..] == a[1..] + b;
      CountAppend(c, a[1..], b);
    }
  }

  lemma {:induction false} CountNewlines(n: nat)
    ensures Count(NEWLINE, Newlines(n)) == n
  {
    if n > 0 { CountNewlines(n - 1); }
  }

  lemma NewlineFirst(t: string)
    ensures Strip(Code, [NEWLINE] + t) == [NEWLINE] + Strip(Code, t)
    ensures Literals(Code, [NEWLINE] + t) == Literals(Code, t)
  {
    assert ([NEWLINE] + t)[1..] == t;
  }

  /** Newlines at the front pass through. */
  lemma {:induction false} StripNewlines(n: nat, s: string)
    ensures Strip(Code, Newlines(n) + s) == Newlines(n) + Strip(Code, s)
    ensures Literals(Code, Newlines(n) + s) == Literals(Code, s)
  {
    hide Strip, Literals;
    if n == 0 {
      assert Newlines(n) + s == s;
      assert Newlines(n) + Strip(Code, s) == Strip(Code, s);
    } else {
      var t := Newlines(n - 1);
      StripNewlines(n - 1, s);
      NewlineFirst(t + s);
      assert [NEWLINE] + t + s == [NEWLINE] + (t + s);
      assert [NEWLINE] + t + Strip(Code, s) == [NEWLINE] + (t + Strip(Code, s));
    }
  }

  /** Stripping code never makes a comment out of a lone slash: what follows it
      in the result is what followed it in the text. */
  lemma StripFirst(m: Mode, s: string)
    requires s != [] && !(m == Code && (LineComment(s) || BlockComment(s)))
    ensures Strip(m, s) != [] && Strip(m, s)[0] == s[0] && Strip(m, s)[1..] == Strip(After(m, s[0]), s[1..])
    ensures m == Code ==> !LineComment(Strip(m, s)) && !BlockComment(Strip(m, s))
  {
    if m == Code && s[0] == '/' && |s| > 1 {
      assert s[1] != '/' && s[1] != '*';
      assert Strip(Code, s[1..])[0] == s[1];
    }
  }

  /** Stripping twice is stripping once. */
  lemma {:induction false} StripIdempotent(m: Mode, s: string)
    ensures Strip(m, Strip(m, s)) == Strip(m, s)
    decreases |s|
  {
    if s == [] {
    } else if m == Code && LineComment(s) {
      var n := 2 + LineEnd(s[2..]);
      if n < |s| {
        StripIdempotent(Code, s[n + 1..]);
        StripNewlines(1, Strip(Code, s[n + 1..]));
        assert Newlines(1) == [NEWLINE];
      }
    } else if m == Code && BlockComment(s) {
      var n := 2 + BlockEnd(s[2..]);
      StripIdempotent(Code, s[n..]);
      StripNewlines(Count(NEWLINE, s[..n]), Strip(Code, s[n..]));
    } else {
      StripFirst(m, s);
      StripIdempotent(After(m, s[0]), s[1..]);
    }
  }

  lemma LineCommentCount(s: string)
    requires LineComment(s)
    ensures var n := 2 + LineEnd(s[2..]); Count(NEWLINE, s) == Count(NEWLINE, s[n..])
  {
    hide LineEnd;
    var n := 2 + LineEnd(s[2..]);
    assert s == s[..2] + (s[2..][..n - 2] + s[n..]);
    CountAppend(NEWLINE, s[..2], s[2..][..n - 2] + s[n..]);
    CountAppend(NEWLINE, s[2..][..n - 2], s[n..]);
    assert Count(NEWLINE, s[..2]) == 0 by { assert s[..2] == ['/', '/'] && s[..2][1..] == ['/'] && ['/'][1..] == []; }
  }

  lemma SameLines(s: string, n: nat, rest: string)
    requires n <= |s| && Count(NEWLINE, rest) == Count(NEWLINE, s[n..])
    ensures Count(NEWLINE, Newlines(Count(NEWLINE, s[..n])) + rest) == Count(NEWLINE, s)
  {
    hide Count, Newlines;
    var k := Count(NEWLINE, s[..n]);
    assert s == s[..n] + s[n..];
    CountAppend(NEWLINE, s[..n], s[n..]);
    CountAppend(NEWLINE, Newlines(k), rest);
    CountNewlines(k);
  }

  /** No line is gained or lost. */
  lemma {:induction false} StripKeepsLines(m: Mode, s: string)
    ensures Count(NEWLINE, Strip(m, s)) == Count(NEWLINE, s)
    decreases |s|
  {
    if s == [] {
    } else if m == Code && LineComment(s) {
      var n := 2 + LineEnd(s[2..]);
      LineCommentCount(s);
      if n < |s| {
        StripKeepsLines(Code, s[n + 1..]);
        assert s[n..][1..] == s[n + 1..];
        assert ([NEWLINE] + Strip(Code, s[n + 1..]))[1..] == Strip(Code, s[n + 1..]);
      }
    } else if m == Code && BlockComment(s) {
      var n := 2 + BlockEnd(s[2..]);
      StripKeepsLines(Code, s[n..]);
      SameLines(s, n, Strip(Code, s[n..]));
    } else {
      StripFirst(m, s);
      StripKeepsLines(After(m, s[0]), s[1..]);
    }
  }

  // ----- one step of stripping -----

  lemma LineCase(s: string)
    requires LineComment(s)
    ensures var n := 2 + LineEnd(s[2..]); Strip(Code, s) == if n < |s| then [NEWLINE] + Strip(Code, s[n + 1..]) else []
  {
    hide LineComment, BlockComment, LineEnd, BlockEnd, Count, Newlines, After;
  }

  lemma BlockCase(s: string)
    requires BlockComment(s)
    ensures var n := 2 + BlockEnd(s[2..]); n <= |s| && Strip(Code, s) == Newlines(Count(NEWLINE, s[..n])) + Strip(Code, s[n..])
  {
    assert !LineComment(s);
    hide LineComment, BlockComment, LineEnd, BlockEnd, Count, Newlines, After;
  }

  lemma PlainCase(m: Mode, c: char, x: string)
    requires !(m == Code && (LineComment([c] + x) || BlockComment([c] + x)))
    ensures Strip(m, [c] + x) == [c] + Strip(After(m, c), x)
  {
    hide After;
    assert ([c] + x)[1..] == x;
  }

  lemma LineLiterals(s: string)
    requires |s| >= 2 && LineComment(s)
    ensures var n := 2 + LineEnd(s[2..]); Literals(Code, s) == if n < |s| then Literals(Code, s[n + 1..]) else []
  {
    hide Literals, LineEnd, LineComment, After;
    var e := LineEnd(s[2..]);
    var n := 2 + e;
    LineSkipped(s);
    if n < |s| {
      NewlineFirst(s[n + 1..]);
      assert s[2..][e] == s[n];
      assert s[n..] == [NEWLINE] + s[n + 1..];
    } else {
      NoLiterals(Code);
      assert s[n..] == [];
    }
  }

  lemma LineSkipped(s: string)
    requires LineComment(s)
    ensures Literals(Code, s) == Literals(Code, s[2 + LineEnd(s[2..])..])
  {
    hide LineEnd, After;
  }

  lemma BlockLiterals(s: string)
    requires BlockComment(s)
    ensures Literals(Code, s) == Literals(Code, s[2 + BlockEnd(s[2..])..])
  {
    assert !LineComment(s);
    hide LineComment, BlockComment, LineEnd, BlockEnd, FirstMark, BehindMark, After;
    BlockEndsAtMark(s[2..]);
    assert s[2..][BlockEnd(s[2..])..] == s[2 + BlockEnd(s[2..])..];
  }

  lemma PlainLiterals(m: Mode, c: char, x: string)
    requires !(m == Code && (LineComment([c] + x) || BlockComment([c] + x)))
    ensures Literals(m, [c] + x) == (if m == Code && After(m, c) == Code then [] else [c]) + Literals(After(m, c), x)
  {
    hide After;
    assert ([c] + x)[1..] == x;
  }

  /** Every literal comes through character by character. */
  lemma {:induction false} StripKeepsLiterals(m: Mode, s: string)
    ensures Literals(m, Strip(m, s)) == Literals(m, s)
    decreases |s|
  {
    hide Strip, Literals, LineEnd, BlockEnd, Count, Newlines, After;
    if s == [] {
      StripNone(m);
    } else if m == Code && LineComment(s) {
      var n := 2 + LineEnd(s[2..]);
      LineCase(s);
      LineLiterals(s);
      if n < |s| {
        StripKeepsLiterals(Code, s[n + 1..]);
        NewlineFirst(Strip(Code, s[n + 1..]));
        NewlineKept(s[n + 1..]);
      } else {
        NoLiterals(Code);
      }
    } else if m == Code && BlockComment(s) {
      var n := 2 + BlockEnd(s[2..]);
      BlockCase(s);
      BlockLiterals(s);
      StripKeepsLiterals(Code, s[n..]);
      NewlinesNoLiterals(Count(NEWLINE, s[..n]), Strip(Code, s[n..]));
    } else {
      var c, x := s[0], s[1..];
      assert s == [c] + x;
      PlainCase(m, c, x);
      PlainLiterals(m, c, x);
      StripKeepsLiterals(After(m, c), x);
      StripFirst(m, s);
      PlainLiterals(m, c, Strip(After(m, c), x));
    }
  }

  lemma NoLiterals(m: Mode)
    ensures Literals(m, []) == []
  {
  }

  lemma NewlineKept(x: string)
    ensures Literals(Code, [NEWLINE] + Strip(Code, x)) == Literals(Code, Strip(Code, x))
  {
    hide Strip;
    NewlineFirst(Strip(Code, x));
  }

  lemma {:induction false} NewlinesNoLiterals(n: nat, s: string)
    ensures Literals(Code, Newlines(n) + s) == Literals(Code, s)
  {
    StripNewlines(n, s);
  }

  /** The program's loop. */
  method StripCComments(s: string) returns (out: string)
    ensures out == Strip(Code, s)
  {
    hide Strip, Count, LineEnd, BlockEnd, Newlines, After;
    out := [];
    var mode := Code;
    var i := 0;
    assert s[0..] == s && s[|s|..] == [];
    StripNone(mode);
    while i < |s|
      invariant i <= |s|
      invariant out + Strip(mode, s[i..]) == Strip(Code, s)
      decreases |s| - i
    {
      var c := s[i];
      if mode == Code && c == '/' && i + 1 < |s| && s[i + 1] == '/' {
        var j := SkipLine(s, i + 2);
        StripLine(s, i);
        if j < |s| {
          assert out + ([NEWLINE] + Strip(Code, s[j + 1..])) == out + [NEWLINE] + Strip(Code, s[j + 1..]);
          out := out + [NEWLINE];
          i := j + 1;
        } else {
          i := j;
        }
      } else if mode == Code && c == '/' && i + 1 < |s| && s[i + 1] == '*' {
        var nl, j := SkipBlock(s, i + 2);
        StripBlock(s, i);
        assert out + (Newlines(nl) + Strip(Code, s[j..])) == out + Newlines(nl) + Strip(Code, s[j..]);
        out := out + Newlines(nl);
        i := j;
      } else {
        StripPlain(mode, s, i);
        assert out + ([c] + Strip(After(mode, c), s[i + 1..])) == out + [c] + Strip(After(mode, c), s[i + 1..]);
        out := out + [c];
        mode := After(mode, c);
        i := i + 1;
      }
    }
    StripNone(mode);
    assert out + [] == out;
  }

  /** To the end of a line comment. */
  method SkipLine(s: string, start: nat) returns (i: nat)
    requires start <= |s|
    ensures i == start + LineEnd(s[start..])
  {
    i := start;
    while i < |s| && s[i] != NEWLINE
      invariant start <= i <= |s| && start + LineEnd(s[start..]) == i + LineEnd(s[i..])
    {
      assert s[i..][1..] == s[i + 1..];
      i := i + 1;
    }
  }

  lemma StripLine(s: string, i: nat)
    requires i < |s| && LineComment(s[i..])
    ensures var j := i + 2 + LineEnd(s[i + 2..]);
      j <= |s| && Strip(Code, s[i..]) == if j < |s| then [NEWLINE] + Strip(Code, s[j + 1..]) else []
  {
    hide Strip, LineEnd, Count;
    var t := s[i..];
    assert t[2..] == s[i + 2..];
    var n := 2 + LineEnd(t[2..]);
    LineCase(t);
    if n < |t| { assert t[n + 1..] == s[i + n + 1..]; }
  }

  lemma StripBlock(s: string, i: nat)
    requires i < |s| && BlockComment(s[i..])
    ensures var k := BlockEnd(s[i + 2..]);
      && i + 2 + k <= |s|
      && Strip(Code, s[i..]) == Newlines(Count(NEWLINE, s[i + 2..][..k])) + Strip(Code, s[i + 2 + k..])
  {
    hide Strip, BlockEnd, Count, Newlines;
    var t := s[i..];
    assert t[2..] == s[i + 2..];
    var k := BlockEnd(t[2..]);
    BlockCase(t);
    CommentLines(t);
    assert t[2 + k..] == s[i + 2 + k..];
  }

  /** The inner loop: the newlines inside a block comment, and where it ends. */
  method SkipBlock(s: string, start: nat) returns (newlines: nat, i: nat)
    requires start <= |s|
    ensures i == start + BlockEnd(s[start..])
    ensures newlines == Count(NEWLINE, s[start..][..BlockEnd(s[start..])])
  {
    newlines, i := 0, start;
    ghost var rest := s[start..];
    ghost var n := BlockEnd(rest);
    assert rest[..n] == rest[0..n];
    while i < |s|
      invariant start <= i <= |s| && i - start <= n
      invariant n == (i - start) + BlockEnd(s[i..])
      invariant newlines + Count(NEWLINE, rest[i - start..n]) == Count(NEWLINE, rest[..n])
    {
      assert s[i..][1..] == s[i + 1..];
      if s[i] == '*' && i + 1 < |s| && s[i + 1] == '/' {
        TwoMarks(rest[i - start..n]);
        i := i + 2;
        break;
      }
      assert rest[i - start..n][1..] == rest[i + 1 - start..n];
      if s[i] == NEWLINE {
        newlines := newlines + 1;
      }
      i := i + 1;
    }
    if i - start == n { assert rest[n..n] == []; }
  }

  lemma TwoMarks(t: string)
    requires t == ['*', '/']
    ensures Count(NEWLINE, t) == 0
  {
    assert t[1..] == ['/'];
    assert Count(NEWLINE, ['/']) == 0 by { assert ['/'][1..] == []; }
  }

  lemma CommentLines(s: string)
    requires BlockComment(s)
    ensures var n := BlockEnd(s[2..]); Count(NEWLINE, s[..2 + n]) == Count(NEWLINE, s[2..][..n])
  {
    var n := BlockEnd(s[2..]);
    assert s[..2 + n] == s[..2] + s[2..][..n];
    CountAppend(NEWLINE, s[..2], s[2..][..n]);
    assert s[..2] == ['/', '*'] && ['/', '*'][1..] == ['*'] && ['*'][1..] == [];
  }

  lemma StripNone(m: Mode)
    ensures Strip(m, []) == []
  {
  }

  lemma StripPlain(m: Mode, s: string, i: nat)
    requires i < |s| && !(m == Code && (LineComment(s[i..]) || BlockComment(s[i..])))
    ensures Strip(m, s[i..]) == [s[i]] + Strip(After(m, s[i]), s[i + 1..])
  {
    assert s[i..][1..] == s[i + 1..];
  }

  // ----- braces -----

  /** Nesting depth after a character; braces inside literals do not count. */
  function Depth(m: Mode, d: int, c: char): int {
    if m == Code && c == '{' then d + 1 else if m == Code && c == '}' then d - 1 else d
  }

  /** The index of the brace that closes depth d. */
  datatype Found = At(index: nat) | Missing

  function CloseAt(m: Mode, d: int, s: string): (r: Found)
    requires d >= 1
    ensures r.At? ==> r.index < |s| && s[r.index] == '}'
    decreases |s|
  {
    if s == [] then Missing
    else if Depth(m, d, s[0]) == 0 then At(0)
    else match CloseAt(After(m, s[0]), Depth(m, d, s[0]), s[1..])
      case At(k) => At(k + 1)
      case Missing => Missing
  }

  datatype Extracted<T> = Ok(value: T) | Bad

  /** `braceBody` */
  function BodyOf(s: string, open: int): Extracted<string> {
    if !(0 <= open < |s|) || s[open] != '{' then Bad
    else match CloseAt(Code, 1, s[open + 1..])
      case At(k) => Ok(s[open + 1..][..k])
      case Missing => Bad
  }

  /** The rows of an initialiser from depth d on; `row` is the text of the row
      being read. */
  function RowsFrom(m: Mode, d: int, row: string, s: string): Extracted<seq<string>>
    requires d >= 0
    decreases |s|
  {
    if s == [] then if d == 0 then Ok([]) else Bad
    else
      var d', m' := Depth(m, d, s[0]), After(m, s[0]);
      if d' < 0 then Bad
      else if d' == 0 && d == 1 then
        match RowsFrom(m', 0, [], s[1..]) case Ok(rows) => Ok([row] + rows) case Bad => Bad
      else RowsFrom(m', d', if d == 0 then [] else row + [s[0]], s[1..])
  }

  /** `topLevelRows` */
  function RowsOf(body: string): Extracted<seq<string>> { RowsFrom(Code, 0, [], body) }

  /** Reading the text from the start ends at depth 0, outside any literal, and
      never goes below depth 0. */
  predicate Balanced(m: Mode, d: int, s: string)
    decreases |s|
  {
    d >= 0 && if s == [] then d == 0 && m == Code else Balanced(After(m, s[0]), Depth(m, d, s[0]), s[1..])
  }

  /** What lies before the closing brace is balanced. */
  lemma {:induction false} CloseBalances(m: Mode, d: int, s: string)
    requires d >= 1 && CloseAt(m, d, s).At?
    ensures Balanced(m, d - 1, s[..CloseAt(m, d, s).index])
    decreases |s|
  {
    var k := CloseAt(m, d, s).index;
    if k > 0 {
      CloseBalances(After(m, s[0]), Depth(m, d, s[0]), s[1..]);
      assert s[..k][1..] == s[1..][..k - 1];
    }
  }

  lemma {:induction false} BalancedRows(m: Mode, d: int, row: string, s: string)
    requires Balanced(m, d, s)
    ensures RowsFrom(m, d, row, s).Ok?
    decreases |s|
  {
    if s != [] {
      var d', m' := Depth(m, d, s[0]), After(m, s[0]);
      BalancedRows(m', d', [], s[1..]);
      BalancedRows(m', d', row + [s[0]], s[1..]);
    }
  }

  /** Whatever `braceBody` returns, `topLevelRows` accepts. */
  lemma BodyHasRows(s: string, open: int)
    requires BodyOf(s, open).Ok?
    ensures RowsOf(BodyOf(s, open).value).Ok? && Balanced(Code, 0, BodyOf(s, open).value)
  {
    CloseBalances(Code, 1, s[open + 1..]);
    BalancedRows(Code, 0, [], BodyOf(s, open).value);
  }

  /** Every row that `topLevelRows` returns is itself balanced and ends outside
      any literal. */
  lemma {:induction false} RowsBalanced(m: Mode, d: int, row: string, s: string)
    requires d >= 0 && RowsFrom(m, d, row, s).Ok?
    requires d >= 1 ==> Reads(row, m, d - 1)
    ensures forall i :: 0 <= i < |RowsFrom(m, d, row, s).value| ==> Balanced(Code, 0, RowsFrom(m, d, row, s).value[i])
    decreases |s|
  {
    if s != [] {
      var d', m' := Depth(m, d, s[0]), After(m, s[0]);
      if d' == 0 && d == 1 {
        ReadsBalanced(Code, 0, row, 0);
        RowsBalanced(m', 0, [], s[1..]);
      } else if d == 0 {
        RowsBalanced(m', d', [], s[1..]);
      } else {
        ReadsMore(Code, 0, row, s[0]);
        RowsBalanced(m', d', row + [s[0]], s[1..]);
      }
    }
  }

  /** Reading `row` from the start of a row leads to this mode and depth. */
  predicate Reads(row: string, m: Mode, d: int) { Reading(Code, 0, row) == (m, d, true) }

  /** Mode and depth after a text, and whether the depth stayed at 0 or above. */
  function Reading(m: Mode, d: int, s: string): (Mode, int, bool)
    decreases |s|
  {
    if s == [] then (m, d, d >= 0) else
      var r := Reading(After(m, s[0]), Depth(m, d, s[0]), s[1..]);
      (r.0, r.1, d >= 0 && r.2)
  }

  lemma {:induction false} ReadsMore(m: Mode, d: int, s: string, c: char)
    ensures var r := Reading(m, d, s);
      Reading(m, d, s + [c]) == (After(r.0, c), Depth(r.0, r.1, c), r.2 && Depth(r.0, r.1, c) >= 0)
    decreases |s|
  {
    if s == [] {
      assert (s + [c])[1..] == [];
    } else {
      assert (s + [c])[1..] == s[1..] + [c];
      ReadsMore(After(m, s[0]), Depth(m, d, s[0]), s[1..], c);
    }
  }

  lemma {:induction false} ReadsBalanced(m: Mode, d: int, s: string, e: int)
    requires Reading(m, d, s) == (Code, e, true) && e == 0
    ensures Balanced(m, d, s)
    decreases |s|
  {
    if s != [] { ReadsBalanced(After(m, s[0]), Depth(m, d, s[0]), s[1..], e); }
  }

  // ----- string literals -----

  /** The end of the literal that s starts with: `consumeCStringLiteral`. */
  function LiteralEnd(escaped: bool, s: string): (r: Found)
    ensures r.At? ==> r.index < |s| && s[r.index] == QUOTE
    decreases |s|
  {
    if s == [] then Missing
    else if !escaped && s[0] == QUOTE then At(0)
    else match LiteralEnd(!escaped && s[0] == BACKSLASH, s[1..])
      case At(k) => At(k + 1)
      case Missing => Missing
  }

  /** The body of that literal and where it ends. */
  function LiteralOf(s: string): Extracted<(string, nat)> {
    if s == [] then Bad else
      match LiteralEnd(false, s[1..])
      case At(k) => Ok((s[1..][..k], k + 2))
      case Missing => Bad
  }

  datatype Decoding = Text(out: string) | TrailingBackslash | BadEscape

  predicate IsHex(c: char) { '0' <= c <= '9' || 'a' <= c <= 'f' || 'A' <= c <= 'F' }
  predicate IsOctal(c: char) { '0' <= c <= '7' }

  /** How many leading characters satisfy the class, at most max. */
  function Span(hex: bool, max: nat, s: string): (n: nat)
    ensures n <= |s| && n <= max
    ensures forall i :: 0 <= i < n ==> if hex then IsHex(s[i]) else IsOctal(s[i])
  {
    if s == [] || max == 0 || !(if hex then IsHex(s[0]) else IsOctal(s[0])) then 0
    else
      var n := Span(hex, max - 1, s[1..]);
      assert forall i :: 1 <= i < n + 1 ==> s[i] == s[1..][i - 1];
      n + 1
  }

  function Digit(c: char): nat
    requires IsHex(c)
  {
    if c <= '9' then c as int - '0' as int else if c >= 'a' then c as int - 'a' as int + 10 else c as int - 'A' as int + 10
  }

  function Value(base: nat, s: string): nat
    requires forall i :: 0 <= i < |s| ==> IsHex(s[i])
  {
    if s == [] then 0 else base * Value(base, s[..|s| - 1]) + Digit(s[|s| - 1])
  }

  datatype CharOption = TheChar(c: char) | NoChar

  /** The character an escape letter stands for. */
  function Simple(c: char): CharOption {
    if c == 'a' then TheChar(7 as char) else if c == 'b' then TheChar(8 as char)
    else if c == 'f' then TheChar(12 as char) else if c == 'n' then TheChar('\n')
    else if c == 'r' then TheChar('\r') else if c == 't' then TheChar('\t')
    else if c == 'v' then TheChar(11 as char)
    else if c == BACKSLASH || c == TICK || c == QUOTE || c == '?' then TheChar(c)
    else NoChar
  }

  /** What the digits after an x stand for, and the length of the escape. */
  function HexEscape(digits: string): (r: Extracted<(char, nat)>)
    requires forall i :: 0 <= i < |digits| ==> IsHex(digits[i])
    ensures r.Ok? ==> r.value.1 == 1 + |digits|
  {
    if digits == [] || Value(16, digits) >= 0x8000_0000 then Bad
    else Ok(((Value(16, digits) % 256) as char, 1 + |digits|))
  }

  function Prefixed(c: char, d: Decoding): Decoding { if d.Text? then Text([c] + d.out) else d }

  /** The character an escape stands for and the length of the escape, the
      backslash not counted. */
  function Escape(t: string): (r: Extracted<(char, nat)>)
    requires t != []
    ensures r.Ok? ==> 1 <= r.value.1 <= |t| && forall i :: 1 <= i < r.value.1 ==> t[i] != BACKSLASH
  {
    var letter := Simple(t[0]);
    if letter.TheChar? then Ok((letter.c, 1))
    else if t[0] == 'x' || t[0] == 'X' then
      var n := Span(true, |t|, t[1..]);
      assert forall i :: 1 <= i < 1 + n ==> t[i] == t[1..][i - 1];
      HexEscape(t[1..1 + n])
    else if IsOctal(t[0]) then
      var n := Span(false, 2, t[1..]);
      assert forall i :: 1 <= i < 1 + n ==> t[i] == t[1..][i - 1];
      Ok(((Value(8, t[..1 + n]) % 256) as char, 1 + n))
    else Bad
  }

  /** `decodeCStringBody` */
  function Decode(s: string): Decoding
    decreases |s|
  {
    hide Value, Span, Simple;
    if s == [] then Text([])
    else if s[0] != BACKSLASH then Prefixed(s[0], Decode(s[1..]))
    else if |s| == 1 then TrailingBackslash
    else match Escape(s[1..])
      case Ok((c, n)) => Prefixed(c, Decode(s[1 + n..]))
      case Bad => BadEscape
  }

  /** Every backslash has the character it escapes after it. */
  predicate Paired(s: string)
    decreases |s|
  {
    s == [] || (if s[0] == BACKSLASH then |s| > 1 && Paired(s[2..]) else Paired(s[1..]))
  }

  lemma {:induction false} LiteralPaired(s: string)
    requires LiteralEnd(false, s).At?
    ensures Paired(s[..LiteralEnd(false, s).index])
    decreases |s|
  {
    var k := LiteralEnd(false, s).index;
    if k > 0 {
      if s[0] == BACKSLASH {
        assert s[1..][1..] == s[2..];
        LiteralPaired(s[2..]);
        assert s[..k][2..] == s[2..][..k - 2];
      } else {
        LiteralPaired(s[1..]);
        assert s[..k][1..] == s[1..][..k - 1];
      }
    }
  }

  /** Characters that are no backslashes can be passed over. */
  lemma {:induction false} PairedSkip(s: string, n: nat)
    requires n <= |s| && Paired(s) && forall i :: 0 <= i < n ==> s[i] != BACKSLASH
    ensures Paired(s[n..])
  {
    if n > 0 {
      PairedSkip(s[1..], n - 1);
      assert s[1..][n - 1..] == s[n..];
    }
  }

  lemma {:induction false} PairedDecodes(s: string)
    requires Paired(s)
    ensures Decode(s) != TrailingBackslash
    decreases |s|
  {
    hide Value, Span, Simple;
    if s == [] {
    } else if s[0] != BACKSLASH {
      PairedDecodes(s[1..]);
    } else {
      var e := Escape(s[1..]);
      if e.Ok? {
        var n := e.value.1;
        assert forall i :: 0 <= i < n - 1 ==> s[2..][i] == s[1..][1 + i];
        PairedSkip(s[2..], n - 1);
        assert s[2..][n - 1..] == s[1 + n..];
        PairedDecodes(s[1 + n..]);
      }
    }
  }

  /** A body that `consumeCStringLiteral` cut out never ends in a lone backslash
      for `decodeCStringBody`. */
  lemma LiteralDecodes(s: string)
    ensures LiteralOf(s).Ok? ==> Decode(LiteralOf(s).value.0) != TrailingBackslash
  {
    if LiteralOf(s).Ok? {
      LiteralPaired(s[1..]);
      PairedDecodes(LiteralOf(s).value.0);
    }
  }

  // ----- the programs -----

  function Later(k: nat, f: Found): Found { if f.At? then At(k + f.index) else Missing }

  method BraceBody(s: string, open: int) returns (r: Extracted<string>)
    ensures r == BodyOf(s, open)
  {
    hide CloseAt, After;
    if open < 0 || open >= |s| || s[open] != '{' {
      return Bad;
    }
    var depth, mode := 0, Code;
    var i := open;
    ghost var goal := CloseAt(Code, 1, s[open + 1..]);
    AfterBrace();
    while i < |s|
      invariant open <= i <= |s|
      invariant i == open ==> depth == 0 && mode == Code
      invariant i > open ==> depth >= 1 && goal == Later(i - open - 1, CloseAt(mode, depth, s[i..]))
    {
      var c := s[i];
      ghost var d := Depth(mode, depth, c);
      if i > open {
        CloseStep(mode, depth, s, i);
        LaterLater(i - open - 1, CloseAt(After(mode, c), if d >= 1 then d else 1, s[i + 1..]));
      }
      if mode == Code && c == '{' {
        depth := depth + 1;
      } else if mode == Code && c == '}' {
        depth := depth - 1;
        if depth == 0 {
          BodySlice(s, open, i);
          return Ok(s[open + 1..i]);
        }
      }
      mode := After(mode, c);
      i := i + 1;
    }
    CloseNone(mode, if depth >= 1 then depth else 1);
    assert s[i..] == [];
    r := Bad;
  }

  lemma LaterLater(k: nat, f: Found)
    ensures Later(k, Later(1, f)) == Later(k + 1, f)
  {
  }

  lemma BodySlice(s: string, open: nat, i: nat)
    requires open < i <= |s|
    ensures s[open + 1..i] == s[open + 1..][..i - open - 1]
  {
  }

  lemma AfterBrace()
    ensures After(Code, '{') == Code
  {
  }

  lemma CloseNone(m: Mode, d: int)
    requires d >= 1
    ensures CloseAt(m, d, []) == Missing
  {
  }

  lemma CloseStep(m: Mode, d: int, s: string, i: nat)
    requires d >= 1 && i < |s|
    ensures CloseAt(m, d, s[i..]) ==
      if Depth(m, d, s[i]) == 0 then At(0) else Later(1, CloseAt(After(m, s[i]), Depth(m, d, s[i]), s[i + 1..]))
  {
    assert s[i..][1..] == s[i + 1..];
  }

  function Preceded(rows: seq<string>, r: Extracted<seq<string>>): Extracted<seq<string>> {
    if r.Ok? then Ok(rows + r.value) else Bad
  }

  method TopLevelRows(body: string) returns (r: Extracted<seq<string>>)
    ensures r == RowsOf(body)
  {
    hide RowsFrom, After;
    var rows: seq<string>, depth, rowStart, mode := [], 0, 0, Code;
    var i := 0;
    assert body[0..] == body;
    assert RowsOf(body).Ok? ==> [] + RowsOf(body).value == RowsOf(body).value;
    while i < |body|
      invariant i <= |body| && depth >= 0
      invariant depth > 0 ==> 0 <= rowStart <= i
      invariant Preceded(rows, RowsFrom(mode, depth, if depth > 0 then body[rowStart..i] else [], body[i..])) == RowsOf(body)
    {
      var c := body[i];
      ghost var row := if depth > 0 then body[rowStart..i] else [];
      RowsStep(mode, depth, row, body[i..], rows);
      assert body[i..][1..] == body[i + 1..];
      assert depth > 0 ==> row + [c] == body[rowStart..i + 1];
      assert body[i + 1..i + 1] == [];
      if mode == Code && c == '{' {
        if depth == 0 {
          rowStart := i + 1;
        }
        depth := depth + 1;
      } else if mode == Code && c == '}' {
        depth := depth - 1;
        if depth < 0 {
          return Bad;
        }
        if depth == 0 {
          rows := rows + [body[rowStart..i]];
        }
      }
      mode := After(mode, c);
      i := i + 1;
    }
    RowsEnd(mode, depth, if depth > 0 then body[rowStart..i] else []);
    assert body[i..] == [] && rows + [] == rows;
    r := if depth != 0 then Bad else Ok(rows);
  }

  lemma RowsEnd(m: Mode, d: int, row: string)
    requires d >= 0
    ensures RowsFrom(m, d, row, []) == if d == 0 then Ok([]) else Bad
  {
  }

  lemma RowsStep(m: Mode, d: int, row: string, s: string, rows: seq<string>)
    requires d >= 0 && s != []
    ensures var d', m' := Depth(m, d, s[0]), After(m, s[0]);
      Preceded(rows, RowsFrom(m, d, row, s)) ==
      if d' < 0 then Bad
      else if d' == 0 && d == 1 then Preceded(rows + [row], RowsFrom(m', 0, [], s[1..]))
      else Preceded(rows, RowsFrom(m', d', if d == 0 then [] else row + [s[0]], s[1..]))
  {
    var r := RowsFrom(After(m, s[0]), 0, [], s[1..]);
    if r.Ok? { assert rows + ([row] + r.value) == rows + [row] + r.value; }
  }

  /** The first character, an opening quote, is skipped unread. */
  method ConsumeCStringLiteral(s: string) returns (r: Extracted<(string, nat)>)
    ensures r == LiteralOf(s)
  {
    var escaped := false;
    var i := 1;
    while i < |s|
      invariant 1 <= i && (i <= |s| || s == [])
      invariant s != [] ==> LiteralEnd(false, s[1..]) == Later(i - 1, LiteralEnd(escaped, s[i..]))
    {
      var c := s[i];
      assert s[i..][1..] == s[i + 1..];
      if escaped {
        escaped := false;
      } else if c == BACKSLASH {
        escaped := true;
      } else if c == QUOTE {
        assert s[1..i] == s[1..][..i - 1];
        return Ok((s[1..i], i + 1));
      }
      i := i + 1;
    }
    r := Bad;
  }

  function Following(out: string, d: Decoding): Decoding { if d.Text? then Text(out + d.out) else d }

  method DecodeCStringBody(body: string) returns (r: Decoding)
    ensures r == Decode(body)
  {
    hide Escape;
    var out := [];
    var i := 0;
    assert body[0..] == body;
    assert Decode(body).Text? ==> [] + Decode(body).out == Decode(body).out;
    while i < |body|
      invariant i <= |body|
      invariant Following(out, Decode(body[i..])) == Decode(body)
    {
      ghost var t := body[i..];
      var c := body[i];
      assert t[1..] == body[i + 1..];
      if c != BACKSLASH {
        FollowingOne(out, c, Decode(t[1..]));
        out := out + [c];
        i := i + 1;
        continue;
      }
      if i + 1 >= |body| {
        return TrailingBackslash;
      }
      var e := DecodeEscape(body, i + 1);
      if e.Bad? {
        return BadEscape;
      }
      assert t[1 + e.value.1..] == body[i + 1 + e.value.1..];
      FollowingOne(out, e.value.0, Decode(t[1 + e.value.1..]));
      out := out + [e.value.0];
      i := i + 1 + e.value.1;
    }
    assert body[i..] == [] && out + [] == out;
    r := Text(out);
  }

  /** The switch on the escaped character, with `consumeHexEscape` and
      `consumeOctalEscape`. */
  method DecodeEscape(body: string, i: nat) returns (r: Extracted<(char, nat)>)
    requires i < |body|
    ensures r == Escape(body[i..])
  {
    hide Simple, Value;
    var esc := body[i];
    ghost var t := body[i..];
    assert t[0] == esc && t[1..] == body[i + 1..];
    var letter := Simple(esc);
    if letter.TheChar? {
      return Ok((letter.c, 1));
    }
    if esc == 'x' || esc == 'X' {
      var n := SpanLoop(true, |body| - i, body, i + 1);
      assert t[1..1 + n] == body[i + 1..i + 1 + n];
      if n == 0 || Value(16, body[i + 1..i + 1 + n]) >= 0x8000_0000 {
        return Bad;
      }
      return Ok(((Value(16, body[i + 1..i + 1 + n]) % 256) as char, 1 + n));
    }
    if IsOctal(esc) {
      var n := SpanLoop(false, 2, body, i + 1);
      assert t[..1 + n] == body[i..i + 1 + n];
      return Ok(((Value(8, body[i..i + 1 + n]) % 256) as char, 1 + n));
    }
    r := Bad;
  }

  method SpanLoop(hex: bool, max: nat, s: string, start: nat) returns (n: nat)
    requires start <= |s|
    ensures n == Span(hex, max, s[start..])
  {
    n := 0;
    while start + n < |s| && n < max && (if hex then IsHex(s[start + n]) else IsOctal(s[start + n]))
      invariant start + n <= |s| && n <= max
      invariant Span(hex, max, s[start..]) == n + Span(hex, max - n, s[start + n..])
    {
      assert s[start + n..][1..] == s[start + n + 1..];
      n := n + 1;
    }
  }

  lemma FollowingOne(out: string, c: char, d: Decoding)
    ensures Following(out, Prefixed(c, d)) == Following(out + [c], d)
  {
    if d.Text? { assert out + ([c] + d.out) == out + [c] + d.out; }
  }
}
