/** Writing C string literals, and what the extractor's literal routines
    (internal/commandspec/extract/extract.go) read back. */
module CSourceLiterals {
  import opened CSource
  import opened CSourceText

  // ----- finding a literal's end -----

  lemma {:induction false} EndFound(body: string, rest: string)
    requires Closed('\"', body)
    ensures LiteralEnd(false, body + "\"" + rest) == At(|body|)
    decreases |body|
  {
    var s := body + "\"" + rest;
    if body != [] {
      if body[0] == '\\' {
        assert s[1..][1..] == body[2..] + "\"" + rest;
        EndFound(body[2..], rest);
      } else {
        assert s[1..] == body[1..] + "\"" + rest;
        EndFound(body[1..], rest);
      }
    }
  }

  /** A literal at the front of a text is cut out up to its own quote. */
  lemma LiteralFound(body: string, rest: string)
    requires Closed('\"', body)
    ensures LiteralOf("\"" + (body + "\"" + rest)) == Ok((body, |body| + 2))
  {
    hide LiteralEnd;
    EndFound(body, rest);
    var s := "\"" + (body + "\"" + rest);
    assert s[1..] == body + "\"" + rest;
    assert s[1..][..|body|] == body;
  }

  /** The error is returned exactly if there is no such quote. */
  lemma {:induction false} EndsClosed(s: string)
    requires LiteralEnd(false, s).At?
    ensures Closed('\"', s[..LiteralEnd(false, s).index]) && s[LiteralEnd(false, s).index] == '\"'
    decreases |s|
  {
    var k := LiteralEnd(false, s).index;
    if k > 0 {
      if s[0] == '\\' {
        assert s[1..][1..] == s[2..];
        EndsClosed(s[2..]);
        assert s[..k][2..] == s[2..][..k - 2];
      } else {
        EndsClosed(s[1..]);
        assert s[..k][1..] == s[1..][..k - 1];
      }
    }
  }

  // ----- escapes -----

  function OctalDigit(n: nat): (c: char)
    requires n < 8
    ensures IsOctal(c) && IsHex(c) && Digit(c) == n
  {
    ('0' as int + n) as char
  }

  function HexDigit(n: nat): (c: char)
    requires n < 16
    ensures IsHex(c) && Digit(c) == n
  {
    if n < 10 then ('0' as int + n) as char else ('a' as int + n - 10) as char
  }

  /** A backslash and three octal digits. */
  function AsOctal(c: char): string
    requires c as int < 256
  {
    ['\\', OctalDigit(c as int / 64), OctalDigit(c as int / 8 % 8), OctalDigit(c as int % 8)]
  }

  /** A backslash, x and two hexadecimal digits. */
  function AsHex(c: char): string
    requires c as int < 256
  {
    ['\\', 'x', HexDigit(c as int / 16), HexDigit(c as int % 16)]
  }

  /** What may follow an escape in hexadecimal without becoming part of it. */
  predicate NoHexFirst(s: string) { s == [] || !IsHex(s[0]) }

  lemma OctalReads(c: char, rest: string)
    requires c as int < 256
    ensures Escape(AsOctal(c)[1..] + rest) == Ok((c, 3))
  {
    hide Simple, Escape, Span, Value, OctalDigit;
    var n := c as int;
    var a, b, d := OctalDigit(n / 64), OctalDigit(n / 8 % 8), OctalDigit(n % 8);
    assert AsOctal(c)[1..] + rest == [a] + ([b, d] + rest);
    EscapeOctal(a, [b, d] + rest);
    TwoOctal(b, d, rest);
    assert [a] + ([b, d] + rest)[..2] == [a, b, d];
    ThreeDigits(8, a, b, d);
    OctalSum(n);
  }

  lemma OctalSum(n: nat)
    requires n < 256
    ensures (n / 64 * 8 + n / 8 % 8) * 8 + n % 8 == n
  {
  }

  lemma EscapeOctal(d: char, x: string)
    requires IsOctal(d)
    ensures var n := Span(false, 2, x);
      Octals([d] + x[..n]) && Escape([d] + x) == Ok(((Value(8, [d] + x[..n]) % 256) as char, 1 + n))
  {
    hide Span, Value, Simple;
    DigitsNotSimple(d);
    var t, n := [d] + x, Span(false, 2, x);
    assert t[0] == d && t[1..] == x && t[..1 + n] == [d] + x[..n];
  }

  /** Digits of an octal number, as far as `Value` is concerned. */
  predicate Octals(s: string) { forall i :: 0 <= i < |s| ==> IsHex(s[i]) }

  lemma TwoOctal(a: char, b: char, rest: string)
    requires IsOctal(a) && IsOctal(b)
    ensures Span(false, 2, [a, b] + rest) == 2
  {
    assert ([a, b] + rest)[1..] == [b] + rest && ([b] + rest)[1..] == rest;
  }

  lemma EscapeHex(x: string)
    ensures var n := Span(true, 1 + |x|, x);
      HexDigits(x[..n]) && Escape(['x'] + x) ==
        if n == 0 || Value(16, x[..n]) >= 2_147_483_648 then Bad else Ok(((Value(16, x[..n]) % 256) as char, 1 + n))
  {
    hide Span, Value, Simple, Escape, IsHex;
    var t, n := ['x'] + x, Span(true, 1 + |x|, x);
    assert t[1..] == x && t[1..1 + n] == x[..n];
    EscapeHexAt(t);
  }

  lemma SpanIsHex(t: string)
    requires t != []
    ensures HexDigits(t[1..1 + Span(true, |t|, t[1..])])
  {
    hide Span, IsHex, HexDigits;
    var n := Span(true, |t|, t[1..]);
    HexStart(t[1..], n);
    assert t[1..][..n] == t[1..1 + n];
  }

  lemma HexStart(u: string, n: nat)
    requires n <= |u| && forall i :: 0 <= i < n ==> IsHex(u[i])
    ensures HexDigits(u[..n])
  {
    hide IsHex;
  }

  lemma EscapeHexAt(t: string)
    requires t != [] && t[0] == 'x'
    ensures var n := Span(true, |t|, t[1..]);
      HexDigits(t[1..1 + n]) && Escape(t) == HexEscape(t[1..1 + n])
  {
    hide Span, Value, Simple, IsHex, IsOctal, HexEscape;
    DigitsNotSimple('x');
    SpanIsHex(t);
  }

  lemma DigitsNotSimple(c: char)
    requires '0' <= c <= '9' || c == 'x'
    ensures Simple(c) == NoChar
  {
  }

  lemma ThreeDigits(base: nat, a: char, b: char, c: char)
    requires IsHex(a) && IsHex(b) && IsHex(c)
    ensures Value(base, [a, b, c]) == (Digit(a) * base + Digit(b)) * base + Digit(c)
    ensures Value(base, [a, b]) == Digit(a) * base + Digit(b)
  {
    hide Digit;
    assert [a, b, c][..2] == [a, b] && [a, b][..1] == [a] && [a][..0] == [];
    assert Value(base, [a]) == Digit(a);
  }

  lemma HexReads(c: char, rest: string)
    requires c as int < 256 && NoHexFirst(rest)
    ensures Escape(AsHex(c)[1..] + rest) == Ok((c, 3))
  {
    hide Simple, Escape, Span, Value, HexDigit;
    var n := c as int;
    var a, b := HexDigit(n / 16), HexDigit(n % 16);
    var x := [a, b] + rest;
    assert AsHex(c)[1..] + rest == ['x'] + x && x[..2] == [a, b];
    EscapeHex(x);
    TwoHex(a, b, rest, 1 + |x|);
    ThreeDigits(16, a, b, b);
    assert n / 16 * 16 + n % 16 == n;
  }

  lemma TwoHex(a: char, b: char, rest: string, max: nat)
    requires IsHex(a) && IsHex(b) && NoHexFirst(rest) && max >= 2
    ensures Span(true, max, [a, b] + rest) == 2
  {
    assert ([a, b] + rest)[1..] == [b] + rest && ([b] + rest)[1..] == rest;
  }

  // ----- writing literals -----

  /** One character as a programmer writes it. */
  function Written(c: char): string
    requires c as int < 256
  {
    if c == '\n' then "\\n" else if c == '\t' then "\\t" else if c == '\r' then "\\r"
    else if c == '\\' then "\\\\" else if c == '\"' then "\\\""
    else if c as int < 32 || c as int >= 127 then AsOctal(c) else [c]
  }

  function WrittenAll(s: string): string
    requires forall i :: 0 <= i < |s| ==> s[i] as int < 256
  {
    if s == [] then [] else Written(s[0]) + WrittenAll(s[1..])
  }

  lemma WrittenReads(c: char, rest: string)
    requires c as int < 256
    ensures Decode(Written(c) + rest) == Prefixed(c, Decode(rest))
    ensures Closed('\"', rest) ==> Closed('\"', Written(c) + rest)
  {
    hide Escape, Value, Span, Simple;
    var w, s := Written(c), Written(c) + rest;
    if w[0] != '\\' {
      assert s[1..] == rest;
    } else {
      var n := |w| - 1;
      assert s[1..] == w[1..] + rest && s[1 + n..] == rest;
      if n == 3 {
        OctalReads(c, rest);
        assert s[2..] == [w[2], w[3]] + rest && s[2..][1..] == [w[3]] + rest && ([w[3]] + rest)[1..] == rest;
        assert Closed('\"', rest) ==> Closed('\"', [w[3]] + rest);
        assert Closed('\"', rest) ==> Closed('\"', [w[2], w[3]] + rest);
      } else {
        assert s[2..] == rest;
        WrittenSimple(c);
        SimpleReads(w[1], c, rest);
        assert w[1..] == [w[1]];
      }
    }
  }

  lemma WrittenSimple(c: char)
    requires c as int < 256 && |Written(c)| == 2
    ensures Simple(Written(c)[1]) == TheChar(c)
  {
  }

  lemma SimpleReads(letter: char, c: char, rest: string)
    requires Simple(letter) == TheChar(c)
    ensures Escape([letter] + rest) == Ok((c, 1))
  {
    hide Simple, Span, Value;
  }

  lemma {:induction false} WrittenDecodes(s: string)
    requires forall i :: 0 <= i < |s| ==> s[i] as int < 256
    ensures Decode(WrittenAll(s)) == Text(s) && Closed('\"', WrittenAll(s))
  {
    hide Written, Escape;
    if s != [] {
      WrittenDecodes(s[1..]);
      WrittenReads(s[0], WrittenAll(s[1..]));
      assert [s[0]] + s[1..] == s;
    }
  }

  /** Any text of 8-bit characters, written as a C string literal, is cut out of
      what surrounds it and decoded to itself. */
  lemma LiteralRoundTrip(s: string, rest: string)
    requires forall i :: 0 <= i < |s| ==> s[i] as int < 256
    ensures var w := WrittenAll(s);
      LiteralOf("\"" + (w + "\"" + rest)) == Ok((w, |w| + 2)) && Decode(w) == Text(s)
  {
    hide WrittenAll, Decode, LiteralOf;
    WrittenDecodes(s);
    LiteralFound(WrittenAll(s), rest);
  }

  /** A text with every character in hexadecimal. */
  function HexAll(s: string): string
    requires forall i :: 0 <= i < |s| ==> s[i] as int < 256
  {
    if s == [] then [] else AsHex(s[0]) + HexAll(s[1..])
  }

  lemma {:induction false} HexDecodes(s: string)
    requires forall i :: 0 <= i < |s| ==> s[i] as int < 256
    ensures Decode(HexAll(s)) == Text(s)
  {
    hide Escape, Decode, AsHex;
    if s == [] {
      NothingToDecode();
    } else {
      var w, rest := AsHex(s[0]), HexAll(s[1..]);
      HexDecodes(s[1..]);
      HexStarts(s[1..]);
      HexReads(s[0], rest);
      AsHexParts(s[0]);
      EscapeDecodes(w[1..], rest, s[0]);
      assert w + rest == "\\" + (w[1..] + rest) && [s[0]] + s[1..] == s;
    }
  }

  lemma NothingToDecode()
    ensures Decode([]) == Text([])
  {
  }

  lemma HexStarts(s: string)
    requires forall i :: 0 <= i < |s| ==> s[i] as int < 256
    ensures NoHexFirst(HexAll(s))
  {
  }

  lemma AsHexParts(c: char)
    requires c as int < 256
    ensures |AsHex(c)| == 4 && AsHex(c) == "\\" + AsHex(c)[1..]
  {
  }

  /** Decoding an escape and going on behind it. */
  lemma EscapeDecodes(w: string, rest: string, c: char)
    requires w != [] && Escape(w + rest) == Ok((c, |w|))
    ensures Decode("\\" + (w + rest)) == Prefixed(c, Decode(rest))
  {
    hide Escape;
    var s := "\\" + (w + rest);
    assert s[1..] == w + rest && s[1 + |w|..] == rest;
  }

  /** The escape letters of C, and that other letters are errors. */
  lemma EscapeLetters(c: char, rest: string)
    ensures c == 'a' ==> Escape([c] + rest) == Ok((7 as char, 1))
    ensures c == 'b' ==> Escape([c] + rest) == Ok((8 as char, 1))
    ensures c == 't' ==> Escape([c] + rest) == Ok((9 as char, 1))
    ensures c == 'n' ==> Escape([c] + rest) == Ok((10 as char, 1))
    ensures c == 'v' ==> Escape([c] + rest) == Ok((11 as char, 1))
    ensures c == 'f' ==> Escape([c] + rest) == Ok((12 as char, 1))
    ensures c == 'r' ==> Escape([c] + rest) == Ok((13 as char, 1))
    ensures c == '\\' || c == '\'' || c == '\"' || c == '?' ==> Escape([c] + rest) == Ok((c, 1))
    ensures IsLetterError(c) ==> Escape([c] + rest) == Bad
  {
    hide Span, Value;
    assert ([c] + rest)[0] == c;
  }

  /** No escape letter, no digit of an octal escape, no x. */
  predicate IsLetterError(c: char) { c !in "abtnvfr\\\'\"?xX01234567" }
  predicate HexDigits(h: string) { forall i :: 0 <= i < |h| ==> IsHex(h[i]) }

  lemma {:induction false} SpanAll(h: string, rest: string, max: nat)
    requires HexDigits(h) && NoHexFirst(rest) && max >= |h|
    ensures Span(true, max, h + rest) == |h|
  {
    if h == [] {
      assert h + rest == rest;
    } else {
      assert (h + rest)[1..] == h[1..] + rest;
      SpanAll(h[1..], rest, max - 1);
    }
  }

  lemma HexOf(x: string, h: string)
    requires HexDigits(h) && Span(true, 1 + |x|, x) == |h| && x[..|h|] == h
    ensures Escape(['x'] + x) ==
      if h == [] || Value(16, h) >= 2_147_483_648 then Bad else Ok(((Value(16, h) % 256) as char, 1 + |h|))
  {
    hide Simple, Value, Escape, Span, IsHex, HexDigits;
    EscapeHex(x);
  }

  /** Hexadecimal digits are taken as long as there are any; a number of 31 bits
      stands for its last eight, a larger one is an error, and so is none. */
  lemma HexRange(h: string, rest: string)
    requires HexDigits(h) && NoHexFirst(rest)
    ensures Escape(['x'] + (h + rest)) ==
      if h == [] || Value(16, h) >= 2_147_483_648 then Bad else Ok(((Value(16, h) % 256) as char, 1 + |h|))
  {
    hide Simple, Value, Escape, Span, IsHex, HexDigits, NoHexFirst;
    var x := h + rest;
    assert x[..|h|] == h;
    SpanAll(h, rest, 1 + |x|);
    HexOf(x, h);
  }
}
