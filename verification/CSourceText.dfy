/** What the lexers of internal/commandspec/extract/extract.go do to texts that are
    put together from comments, literals and braces. */
module CSourceText {
  import opened CSource

  // ----- literals -----

  /** A literal's inside: its quote occurs only escaped, and nothing is left to escape. */
  predicate Closed(q: char, body: string)
    decreases |body|
  {
    if body == [] then true
    else if body[0] == '\\' then |body| > 1 && Closed(q, body[2..])
    else body[0] != q && Closed(q, body[1..])
  }

  predicate IsQuote(q: char) { q == '\"' || q == '\'' }

  function Within(q: char): Mode { if q == '\"' then Str(false) else Chr(false) }

  lemma QuoteOpens(q: char)
    requires IsQuote(q)
    ensures After(Code, q) == Within(q) && After(Within(q), q) == Code
  {
  }

  /** One or two characters of a literal's inside leave it where it was. */
  lemma InsideStays(q: char, body: string)
    requires IsQuote(q) && body != [] && Closed(q, body)
    ensures body[0] == '\\' ==> |body| > 1 && After(After(Within(q), body[0]), body[1]) == Within(q)
    ensures body[0] != '\\' ==> After(Within(q), body[0]) == Within(q)
    ensures Closed(q, body[if body[0] == '\\' then 2 else 1..])
  {
  }

  // ----- comments -----

  /** Reading the text from this mode on ends in code, in no open comment, and not
      on a slash that what follows could turn into one. */
  predicate InCode(m: Mode, a: string)
    decreases |a|
  {
    if a == [] then m == Code
    else if m == Code && LineComment(a) then
      var n := 2 + LineEnd(a[2..]);
      n < |a| && InCode(Code, a[n + 1..])
    else if m == Code && BlockComment(a) then
      FirstMark(a[2..]) < |a| - 2 && InCode(Code, BehindMark(a[2..]))
    else !(m == Code && a == "/") && InCode(After(m, a[0]), a[1..])
  }

  lemma {:induction false} LineEndAppend(p: string, x: string)
    requires LineEnd(p) < |p|
    ensures LineEnd(p + x) == LineEnd(p)
  {
    if p[0] != NEWLINE {
      assert (p + x)[1..] == p[1..] + x;
      LineEndAppend(p[1..], x);
    }
  }

  lemma {:induction false} MarkAppend(p: string, x: string)
    requires FirstMark(p) < |p|
    ensures FirstMark(p + x) == FirstMark(p)
  {
    if !MarkAt(p, 0) {
      assert (p + x)[1..] == p[1..] + x;
      MarkAppend(p[1..], x);
    }
  }

  /** A comment or a character off the front of a text: what comes next, and the
      mode it is read in. */
  function Next(m: Mode, a: string): (r: (Mode, string))
    requires a != []
    ensures |r.1| < |a|
  {
    if m == Code && LineComment(a) then
      var n := 2 + LineEnd(a[2..]);
      (Code, if n < |a| then a[n + 1..] else [])
    else if m == Code && BlockComment(a) then (Code, a[2 + BlockEnd(a[2..])..])
    else (After(m, a[0]), a[1..])
  }

  /** The parts of a text can be stripped one by one. */
  lemma {:induction false} StripAppend(m: Mode, a: string, x: string)
    requires InCode(m, a)
    ensures Strip(m, a + x) == Strip(m, a) + Strip(Code, x)
    decreases |a|
  {
    hide InCode, Strip, Next;
    InCodeParts(m, a);
    if a == [] {
      StripNone(m);
      assert a + x == x && [] + Strip(Code, x) == Strip(Code, x);
    } else {
      var (m', rest) := Next(m, a);
      StripAppend(m', rest, x);
      PieceAppend(m, a, x);
    }
  }

  lemma InCodeParts(m: Mode, a: string)
    requires InCode(m, a)
    ensures a == [] ==> m == Code
    ensures a != [] ==> InCode(Next(m, a).0, Next(m, a).1)
  {
    hide LineEnd, FirstMark, BlockEnd, BehindMark, After;
    if m == Code && BlockComment(a) {
      BlockEndsAtMark(a[2..]);
      assert a[2..][BlockEnd(a[2..])..] == a[2 + BlockEnd(a[2..])..];
    }
  }

  lemma NextLine(a: string)
    requires LineComment(a) && InCode(Code, a)
    ensures 2 + LineEnd(a[2..]) < |a| && Next(Code, a) == (Code, a[2 + LineEnd(a[2..]) + 1..])
  {
    hide LineEnd, After;
  }

  lemma NextBlock(a: string)
    requires BlockComment(a) && InCode(Code, a)
    ensures FirstMark(a[2..]) < |a| - 2 && 2 + BlockEnd(a[2..]) <= |a| && Next(Code, a) == (Code, a[2 + BlockEnd(a[2..])..])
  {
    assert !LineComment(a);
    hide LineComment, LineEnd, BlockEnd, FirstMark, BehindMark, After;
  }

  lemma NextPlain(m: Mode, a: string)
    requires a != [] && InCode(m, a) && !(m == Code && (LineComment(a) || BlockComment(a)))
    ensures !(m == Code && a == "/") && Next(m, a) == (After(m, a[0]), a[1..])
  {
    hide LineComment, BlockComment, After;
  }

  lemma PieceAppend(m: Mode, a: string, x: string)
    requires a != [] && InCode(m, a)
    requires var (m', rest) := Next(m, a); Strip(m', rest + x) == Strip(m', rest) + Strip(Code, x)
    ensures Strip(m, a + x) == Strip(m, a) + Strip(Code, x)
  {
    hide InCode, Next, Strip, LineComment, BlockComment, LineEnd, BlockEnd, FirstMark, After;
    if m == Code && LineComment(a) {
      NextLine(a);
      LineAppend(a, x);
    } else if m == Code && BlockComment(a) {
      NextBlock(a);
      CommentAppend(a, x);
    } else {
      NextPlain(m, a);
      assert [a[0]] + a[1..] == a;
      PlainAppend(m, a[0], a[1..], x);
    }
  }

  lemma LineAppend(a: string, x: string)
    requires LineComment(a) && 2 + LineEnd(a[2..]) < |a|
    requires var rest := a[2 + LineEnd(a[2..]) + 1..]; Strip(Code, rest + x) == Strip(Code, rest) + Strip(Code, x)
    ensures Strip(Code, a + x) == Strip(Code, a) + Strip(Code, x)
  {
    hide Strip, LineEnd;
    var s, n := a + x, 2 + LineEnd(a[2..]);
    assert s[2..] == a[2..] + x && s[n + 1..] == a[n + 1..] + x;
    LineEndAppend(a[2..], x);
    LineCase(a);
    LineCase(s);
    assert [NEWLINE] + Strip(Code, a[n + 1..]) + Strip(Code, x) == [NEWLINE] + (Strip(Code, a[n + 1..]) + Strip(Code, x));
  }

  lemma CommentAppend(a: string, x: string)
    requires BlockComment(a) && FirstMark(a[2..]) < |a| - 2
    requires var rest := a[2 + BlockEnd(a[2..])..]; Strip(Code, rest + x) == Strip(Code, rest) + Strip(Code, x)
    ensures Strip(Code, a + x) == Strip(Code, a) + Strip(Code, x)
  {
    hide Strip, FirstMark, BlockEnd, Count, Newlines;
    var n := 2 + BlockEnd(a[2..]);
    BlockAppend(a, x);
    BlockCase(a);
    BlockCase(a + x);
    assert Newlines(Count(NEWLINE, a[..n])) + Strip(Code, a[n..]) + Strip(Code, x)
        == Newlines(Count(NEWLINE, a[..n])) + (Strip(Code, a[n..]) + Strip(Code, x));
  }

  lemma PlainAppend(m: Mode, c: char, a: string, x: string)
    requires !(m == Code && (LineComment([c] + a) || BlockComment([c] + a) || [c] + a == "/"))
    requires Strip(After(m, c), a + x) == Strip(After(m, c), a) + Strip(Code, x)
    ensures Strip(m, [c] + a + x) == Strip(m, [c] + a) + Strip(Code, x)
  {
    hide Strip, After;
    assert [c] + a + x == [c] + (a + x);
    PlainCase(m, c, a);
    PlainCase(m, c, a + x);
    assert [c] + Strip(After(m, c), a) + Strip(Code, x) == [c] + (Strip(After(m, c), a) + Strip(Code, x));
  }

  lemma BlockAppend(a: string, x: string)
    requires BlockComment(a) && FirstMark(a[2..]) < |a| - 2
    ensures var n := 2 + BlockEnd(a[2..]);
      && n <= |a| && BlockComment(a + x) && 2 + BlockEnd((a + x)[2..]) == n
      && a[n..] == BehindMark(a[2..]) && (a + x)[..n] == a[..n] && (a + x)[n..] == a[n..] + x
  {
    hide FirstMark, BlockEnd;
    assert (a + x)[2..] == a[2..] + x;
    MarkAppend(a[2..], x);
    BlockEndsAtMark(a[2..]);
    BlockEndsAtMark(a[2..] + x);
  }

  function OnlyNewlines(s: string): string {
    if s == [] then [] else (if s[0] == '\n' then "\n" else "") + OnlyNewlines(s[1..])
  }

  lemma {:induction false} NewlinesCounted(s: string)
    ensures Newlines(Count(NEWLINE, s)) == OnlyNewlines(s)
  {
    hide Count;
    if s == [] {
      CountCons('x', []);
    } else {
      NewlinesCounted(s[1..]);
      CountCons(s[0], s[1..]);
      assert [s[0]] + s[1..] == s;
      assert "" + OnlyNewlines(s[1..]) == OnlyNewlines(s[1..]);
    }
  }

  lemma CountCons(c: char, s: string)
    ensures Count(NEWLINE, [c] + s) == (if c == NEWLINE then 1 else 0) + Count(NEWLINE, s) && Count(NEWLINE, []) == 0
  {
    assert ([c] + s)[1..] == s;
  }

  /** A block comment between code: just its newlines are left of it. */
  lemma BlockCommentStripped(a: string, b: string, c: string)
    requires InCode(Code, a) && FirstMark(b + "*/") == |b|
    ensures Strip(Code, a + ("/*" + b + "*/" + c)) == Strip(Code, a) + (OnlyNewlines(b) + Strip(Code, c))
  {
    hide Strip, FirstMark, BlockEnd, Count, Newlines, OnlyNewlines;
    var x := "/*" + b + "*/" + c;
    StripAppend(Code, a, x);
    BlockFirst(b, c);
  }

  lemma BlockFirst(b: string, c: string)
    requires FirstMark(b + "*/") == |b|
    ensures Strip(Code, "/*" + b + "*/" + c) == OnlyNewlines(b) + Strip(Code, c)
  {
    hide FirstMark, BlockEnd, Count, Newlines, OnlyNewlines;
    var x := "/*" + b + "*/" + c;
    assert x[2..] == b + "*/" + c;
    MarkAppend(b + "*/", c);
    BlockEndsAtMark(b + "*/" + c);
    var n := 2 + |b| + 2;
    assert x[..n] == "/*" + b + "*/" && x[n..] == c;
    CountAppend(NEWLINE, "/*" + b, "*/");
    CountAppend(NEWLINE, "/*", b);
    MarksCount();
    NewlinesCounted(b);
  }

  lemma MarksCount()
    ensures Count(NEWLINE, "/*") == 0 && Count(NEWLINE, "*/") == 0
  {
    assert "/*"[1..] == "*" && "*/"[1..] == "/" && "*"[1..] == [] && "/"[1..] == [];
  }

  /** A block comment that is never closed takes the rest. */
  lemma OpenCommentStripped(a: string, b: string)
    requires InCode(Code, a) && FirstMark(b) == |b|
    ensures Strip(Code, a + ("/*" + b)) == Strip(Code, a) + OnlyNewlines(b)
  {
    hide FirstMark, BlockEnd, Count, Newlines, OnlyNewlines;
    var x := "/*" + b;
    StripAppend(Code, a, x);
    assert x[2..] == b;
    BlockEndsAtMark(b);
    assert x[..|x|] == x && x[|x|..] == [];
    CountAppend(NEWLINE, "/*", b);
    MarksCount();
    NewlinesCounted(b);
    assert Strip(Code, []) == [] && OnlyNewlines(b) + [] == OnlyNewlines(b);
  }

  /** A line comment is gone up to its newline. */
  lemma LineCommentStripped(a: string, b: string, c: string)
    requires InCode(Code, a) && '\n' !in b
    ensures Strip(Code, a + ("//" + b + "\n" + c)) == Strip(Code, a) + ("\n" + Strip(Code, c))
    ensures Strip(Code, a + ("//" + b)) == Strip(Code, a)
  {
    hide LineEnd;
    var x, y := "//" + b + "\n" + c, "//" + b;
    StripAppend(Code, a, x);
    StripAppend(Code, a, y);
    assert x[2..] == b + ("\n" + c) && y[2..] == b + [];
    NewlineEnds(b, "\n" + c);
    NewlineEnds(b, []);
    assert x[2 + |b| + 1..] == c;
    assert Strip(Code, a) + [] == Strip(Code, a);
  }

  lemma {:induction false} NewlineEnds(b: string, c: string)
    requires '\n' !in b && (c == [] || c[0] == '\n')
    ensures LineEnd(b + c) == |b|
  {
    if b == [] {
      assert b + c == c;
    } else {
      assert (b + c)[1..] == b[1..] + c;
      NewlineEnds(b[1..], c);
    }
  }

  /** A literal comes through whole, whatever marks of comments it contains. */
  lemma LiteralPasses(a: string, q: char, body: string, c: string)
    requires InCode(Code, a) && IsQuote(q) && Closed(q, body)
    ensures Strip(Code, a + ([q] + body + [q] + c)) == Strip(Code, a) + ([q] + body + [q] + Strip(Code, c))
  {
    hide Strip, Closed, After, InCode;
    var x := body + [q] + c;
    assert [q] + body + [q] + c == [q] + x;
    StripAppend(Code, a, [q] + x);
    QuoteOpens(q);
    PlainCase(Code, q, x);
    InsidePasses(q, body, c);
    assert [q] + (body + [q] + Strip(Code, c)) == [q] + body + [q] + Strip(Code, c);
  }

  lemma {:induction false} InsidePasses(q: char, body: string, c: string)
    requires IsQuote(q) && Closed(q, body)
    ensures Strip(Within(q), body + [q] + c) == body + [q] + Strip(Code, c)
    decreases |body|
  {
    hide Strip, After, Closed;
    if body == [] {
      QuoteOpens(q);
      PlainCase(Within(q), q, c);
      assert body + [q] + c == [q] + c && body + [q] + Strip(Code, c) == [q] + Strip(Code, c);
    } else {
      InsideStays(q, body);
      EscapeIsInside(q, body[0]);
      var m := After(Within(q), body[0]);
      if body[0] == '\\' {
        InsidePasses(q, body[2..], c);
        var rest := body[2..] + [q] + c;
        assert body + [q] + c == [body[0]] + ([body[1]] + rest);
        PlainCase(m, body[1], rest);
        PlainCase(Within(q), body[0], [body[1]] + rest);
        assert [body[0]] + ([body[1]] + (body[2..] + [q] + Strip(Code, c))) == body + [q] + Strip(Code, c);
      } else {
        InsidePasses(q, body[1..], c);
        var rest := body[1..] + [q] + c;
        assert body + [q] + c == [body[0]] + rest;
        PlainCase(Within(q), body[0], rest);
        assert [body[0]] + (body[1..] + [q] + Strip(Code, c)) == body + [q] + Strip(Code, c);
      }
    }
  }

  lemma EscapeIsInside(q: char, b: char)
    requires IsQuote(q)
    ensures Within(q) != Code && (b == '\\' ==> After(Within(q), b) != Code)
  {
  }

  /** Anything without quotes and slashes comes through as it is. */
  lemma {:induction false} PlainPasses(p: string)
    requires forall i :: 0 <= i < |p| ==> p[i] != '/' && !IsQuote(p[i])
    ensures InCode(Code, p) && Strip(Code, p) == p
  {
    if p != [] {
      PlainPasses(p[1..]);
      assert [p[0]] + p[1..] == p;
    }
  }
}
