/** Initialisers put together from characters, literals and braces, and what
    `braceBody` and `topLevelRows` of internal/commandspec/extract/extract.go
    find in them. */
module CSourceRows {
  import opened CSource
  import opened CSourceText

  datatype Piece = Plain(c: char) | Literal(q: char, body: string) | Braced(inner: seq<Piece>)

  predicate Proper(p: Piece)
    decreases p, 1
  {
    match p
    case Plain(c) => !IsQuote(c) && c != '{' && c != '}'
    case Literal(q, body) => IsQuote(q) && Closed(q, body)
    case Braced(inner) => AllProper(inner)
  }

  predicate AllProper(ps: seq<Piece>)
    decreases ps, 0
  {
    forall i :: 0 <= i < |ps| ==> Proper(ps[i])
  }

  function Render(p: Piece): (s: string)
    ensures s != []
    decreases p, 1
  {
    match p
    case Plain(c) => [c]
    case Literal(q, body) => [q] + (body + [q])
    case Braced(inner) => "{" + (RenderAll(inner) + "}")
  }

  function RenderAll(ps: seq<Piece>): string
    decreases ps, 0
  {
    if ps == [] then [] else Render(ps[0]) + RenderAll(ps[1..])
  }

  /** The insides of the braces that are in no other braces. */
  function Rows(ps: seq<Piece>): seq<string> {
    if ps == [] then []
    else (if ps[0].Braced? then [RenderAll(ps[0].inner)] else []) + Rows(ps[1..])
  }

  // ----- the closing brace -----

  lemma CloseCons(m: Mode, d: int, c: char, x: string)
    requires d >= 1 && Depth(m, d, c) >= 1
    ensures CloseAt(m, d, [c] + x) == Later(1, CloseAt(After(m, c), Depth(m, d, c), x))
  {
    hide After;
    assert ([c] + x)[1..] == x;
  }

  lemma {:induction false} CloseInside(q: char, body: string, d: int, x: string)
    requires IsQuote(q) && Closed(q, body) && d >= 1
    ensures CloseAt(Within(q), d, body + ([q] + x)) == Later(|body| + 1, CloseAt(Code, d, x))
    decreases |body|
  {
    hide CloseAt, After, Closed;
    if body == [] {
      QuoteOpens(q);
      CloseCons(Within(q), d, q, x);
      assert body + ([q] + x) == [q] + x;
    } else {
      InsideStays(q, body);
      EscapeIsInside(q, body[0]);
      var m := After(Within(q), body[0]);
      if body[0] == '\\' {
        var rest := body[2..] + ([q] + x);
        CloseInside(q, body[2..], d, x);
        assert body + ([q] + x) == [body[0]] + ([body[1]] + rest);
        CloseCons(m, d, body[1], rest);
        CloseCons(Within(q), d, body[0], [body[1]] + rest);
      } else {
        var rest := body[1..] + ([q] + x);
        CloseInside(q, body[1..], d, x);
        assert body + ([q] + x) == [body[0]] + rest;
        CloseCons(Within(q), d, body[0], rest);
      }
    }
  }

  /** A piece is passed over without the depth reaching 0. */
  lemma {:induction false} ClosePiece(d: int, p: Piece, x: string)
    requires d >= 1 && Proper(p)
    ensures CloseAt(Code, d, Render(p) + x) == Later(|Render(p)|, CloseAt(Code, d, x))
    decreases p, 1
  {
    hide CloseAt, After;
    match p
    case Plain(c) =>
      PlainStays(c);
      CloseCons(Code, d, c, x);
    case Literal(q, body) =>
      QuoteOpens(q);
      CloseInside(q, body, d, x);
      CloseCons(Code, d, q, body + ([q] + x));
      assert Render(p) + x == [q] + (body + ([q] + x));
    case Braced(inner) =>
      ClosePieces(d + 1, inner, "}" + x);
      CloseBraces(d, RenderAll(inner), x);
      assert Render(p) + x == "{" + (RenderAll(inner) + ("}" + x));
  }

  lemma CloseBraces(d: int, body: string, x: string)
    requires d >= 1
    requires CloseAt(Code, d + 1, body + ("}" + x)) == Later(|body|, CloseAt(Code, d + 1, "}" + x))
    ensures CloseAt(Code, d, "{" + (body + ("}" + x))) == Later(|body| + 2, CloseAt(Code, d, x))
  {
    hide CloseAt, After;
    BracesStay();
    CloseCons(Code, d + 1, '}', x);
    CloseCons(Code, d, '{', body + ("}" + x));
  }

  lemma PlainStays(c: char)
    requires !IsQuote(c)
    ensures After(Code, c) == Code
  {
  }

  lemma BracesStay()
    ensures After(Code, '{') == Code && After(Code, '}') == Code
  {
  }

  lemma {:induction false} ClosePieces(d: int, ps: seq<Piece>, x: string)
    requires d >= 1 && AllProper(ps)
    ensures CloseAt(Code, d, RenderAll(ps) + x) == Later(|RenderAll(ps)|, CloseAt(Code, d, x))
    decreases ps, 0
  {
    hide CloseAt, Render, Proper;
    if ps == [] {
      assert RenderAll(ps) + x == x;
    } else {
      ClosePieces(d, ps[1..], x);
      ClosePiece(d, ps[0], RenderAll(ps[1..]) + x);
      assert RenderAll(ps) + x == Render(ps[0]) + (RenderAll(ps[1..]) + x);
    }
  }

  /** `braceBody` finds what is between a brace and its own closing brace. */
  lemma BodyFound(before: string, ps: seq<Piece>, after: string)
    requires AllProper(ps)
    ensures BodyOf(before + ("{" + RenderAll(ps) + "}" + after), |before|) == Ok(RenderAll(ps))
  {
    hide CloseAt, RenderAll;
    var s, body := before + ("{" + RenderAll(ps) + "}" + after), RenderAll(ps);
    assert s[|before| + 1..] == body + ("}" + after);
    ClosePieces(1, ps, "}" + after);
    FirstCloses(after);
    assert (body + ("}" + after))[..|body|] == body;
  }

  lemma FirstCloses(after: string)
    ensures CloseAt(Code, 1, "}" + after) == At(0)
  {
  }

  // ----- the rows -----

  lemma RowCons(m: Mode, d: int, row: string, c: char, x: string)
    requires d >= 1 && Depth(m, d, c) >= 1
    ensures RowsFrom(m, d, row, [c] + x) == RowsFrom(After(m, c), Depth(m, d, c), row + [c], x)
  {
    hide After;
    assert ([c] + x)[1..] == x;
  }

  lemma {:induction false} RowInside(q: char, body: string, d: int, row: string, x: string)
    requires IsQuote(q) && Closed(q, body) && d >= 1
    ensures RowsFrom(Within(q), d, row, body + ([q] + x)) == RowsFrom(Code, d, row + body + [q], x)
    decreases |body|
  {
    hide RowsFrom, After, Closed;
    if body == [] {
      QuoteOpens(q);
      RowCons(Within(q), d, row, q, x);
      assert body + ([q] + x) == [q] + x && row + body + [q] == row + [q];
    } else {
      InsideStays(q, body);
      EscapeIsInside(q, body[0]);
      var m := After(Within(q), body[0]);
      if body[0] == '\\' {
        var rest := body[2..] + ([q] + x);
        RowInside(q, body[2..], d, row + [body[0]] + [body[1]], x);
        assert body + ([q] + x) == [body[0]] + ([body[1]] + rest);
        RowCons(m, d, row + [body[0]], body[1], rest);
        RowCons(Within(q), d, row, body[0], [body[1]] + rest);
        assert row + [body[0]] + [body[1]] + body[2..] + [q] == row + body + [q];
      } else {
        var rest := body[1..] + ([q] + x);
        RowInside(q, body[1..], d, row + [body[0]], x);
        assert body + ([q] + x) == [body[0]] + rest;
        RowCons(Within(q), d, row, body[0], rest);
        assert row + [body[0]] + body[1..] + [q] == row + body + [q];
      }
    }
  }

  /** Inside braces a piece is added to the row. */
  lemma {:induction false} RowPiece(d: int, row: string, p: Piece, x: string)
    requires d >= 1 && Proper(p)
    ensures RowsFrom(Code, d, row, Render(p) + x) == RowsFrom(Code, d, row + Render(p), x)
    decreases p, 1
  {
    hide RowsFrom, After;
    match p
    case Plain(c) =>
      PlainStays(c);
      RowCons(Code, d, row, c, x);
    case Literal(q, body) =>
      QuoteOpens(q);
      RowCons(Code, d, row, q, body + ([q] + x));
      RowInside(q, body, d, row + [q], x);
      assert Render(p) + x == [q] + (body + ([q] + x)) && row + [q] + body + [q] == row + Render(p);
    case Braced(inner) =>
      BracesStay();
      var rest := "}" + x;
      RowCons(Code, d, row, '{', RenderAll(inner) + rest);
      RowPieces(d + 1, row + ['{'], inner, rest);
      RowCons(Code, d + 1, row + ['{'] + RenderAll(inner), '}', x);
      assert Render(p) + x == "{" + (RenderAll(inner) + rest) && rest == ['}'] + x;
      assert row + ['{'] + RenderAll(inner) + ['}'] == row + Render(p);
  }

  lemma {:induction false} RowPieces(d: int, row: string, ps: seq<Piece>, x: string)
    requires d >= 1 && AllProper(ps)
    ensures RowsFrom(Code, d, row, RenderAll(ps) + x) == RowsFrom(Code, d, row + RenderAll(ps), x)
    decreases ps, 0
  {
    hide RowsFrom, Render, Proper;
    if ps == [] {
      assert RenderAll(ps) + x == x && row + [] == row;
    } else {
      RowPiece(d, row, ps[0], RenderAll(ps[1..]) + x);
      RowPieces(d, row + Render(ps[0]), ps[1..], x);
      assert RenderAll(ps) + x == Render(ps[0]) + (RenderAll(ps[1..]) + x);
      assert row + Render(ps[0]) + RenderAll(ps[1..]) == row + RenderAll(ps);
    }
  }

  lemma GapCons(m: Mode, c: char, x: string)
    requires Depth(m, 0, c) == 0
    ensures RowsFrom(m, 0, [], [c] + x) == RowsFrom(After(m, c), 0, [], x)
  {
    hide After;
    assert ([c] + x)[1..] == x;
  }

  lemma {:induction false} GapInside(q: char, body: string, x: string)
    requires IsQuote(q) && Closed(q, body)
    ensures RowsFrom(Within(q), 0, [], body + ([q] + x)) == RowsFrom(Code, 0, [], x)
    decreases |body|
  {
    hide RowsFrom, After, Closed;
    if body == [] {
      QuoteOpens(q);
      GapCons(Within(q), q, x);
      assert body + ([q] + x) == [q] + x;
    } else {
      InsideStays(q, body);
      EscapeIsInside(q, body[0]);
      if body[0] == '\\' {
        var rest := body[2..] + ([q] + x);
        GapInside(q, body[2..], x);
        assert body + ([q] + x) == [body[0]] + ([body[1]] + rest);
        GapCons(After(Within(q), body[0]), body[1], rest);
        GapCons(Within(q), body[0], [body[1]] + rest);
      } else {
        var rest := body[1..] + ([q] + x);
        GapInside(q, body[1..], x);
        assert body + ([q] + x) == [body[0]] + rest;
        GapCons(Within(q), body[0], rest);
      }
    }
  }

  lemma RowOpens(x: string)
    ensures RowsFrom(Code, 0, [], "{" + x) == RowsFrom(Code, 1, [], x)
  {
    assert ("{" + x)[1..] == x;
  }

  lemma RowCloses(row: string, x: string)
    ensures RowsFrom(Code, 1, row, "}" + x) ==
      match RowsFrom(Code, 0, [], x) case Ok(rows) => Ok([row] + rows) case Bad => Bad
  {
    assert ("}" + x)[1..] == x;
  }

  /** Outside braces a piece is skipped, and braces make a row. */
  lemma GapPiece(p: Piece, x: string)
    requires Proper(p) && !p.Braced?
    ensures RowsFrom(Code, 0, [], Render(p) + x) == RowsFrom(Code, 0, [], x)
  {
    hide RowsFrom, After, Closed;
    match p
    case Plain(c) =>
      PlainStays(c);
      GapCons(Code, c, x);
    case Literal(q, body) =>
      QuoteOpens(q);
      GapCons(Code, q, body + ([q] + x));
      GapInside(q, body, x);
      assert Render(p) + x == [q] + (body + ([q] + x));
  }

  lemma RowPart(inner: seq<Piece>, x: string)
    requires AllProper(inner)
    ensures RowsFrom(Code, 0, [], Render(Braced(inner)) + x) ==
      match RowsFrom(Code, 0, [], x) case Ok(rows) => Ok([RenderAll(inner)] + rows) case Bad => Bad
  {
    hide RowsFrom, RenderAll, AllProper;
    RowOpens(RenderAll(inner) + ("}" + x));
    RowPieces(1, [], inner, "}" + x);
    RowCloses(RenderAll(inner), x);
    assert [] + RenderAll(inner) == RenderAll(inner);
    assert Render(Braced(inner)) + x == "{" + (RenderAll(inner) + ("}" + x));
  }

  /** `topLevelRows` finds exactly the insides of the outermost braces. */
  lemma {:induction false} RowsFound(ps: seq<Piece>)
    requires AllProper(ps)
    ensures RowsOf(RenderAll(ps)) == Ok(Rows(ps))
  {
    hide RowsFrom, Render;
    if ps == [] {
      NoRows();
    } else {
      RowsFound(ps[1..]);
      assert Proper(ps[0]) && (!ps[0].Braced? ==> Rows(ps) == Rows(ps[1..]));
      if ps[0].Braced? {
        RowPart(ps[0].inner, RenderAll(ps[1..]));
      } else {
        GapPiece(ps[0], RenderAll(ps[1..]));
      }
    }
  }

  lemma NoRows()
    ensures RowsFrom(Code, 0, [], []) == Ok([])
  {
  }
}
