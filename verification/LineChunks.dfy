/** How cutting a stream into chunks shows in what `Feed` does with it
    (internal/protocol/line.go). */
module LineChunks {
  import opened Bytes
  import opened Utf8
  import opened LineDiscipline

  type Result = (State, seq<Line>)

  /** Telnet commands read byte by byte, without any looking ahead. */
  function Step(s: State, b: Byte): Result {
    if s.skipTelnet > 0 then (s.(skipTelnet := s.skipTelnet - 1), [])
    else if s.pendingIAC then (s.(pendingIAC := false, skipTelnet := if IsOption(b) then 1 else 0), [])
    else if b == IAC then (s.(pendingIAC := true), [])
    else var (t, lines) := TextStep(s.text, b); (s.(text := t), lines)
  }

  function Run(s: State, data: seq<Byte>): Result
    decreases |data|
  {
    if data == [] then (s, [])
    else Emitting(Step(s, data[0]).1, Run(Step(s, data[0]).0, data[1..]))
  }

  /** Successive `Feed` calls. */
  function FeedAll(s: State, chunks: seq<seq<Byte>>): Result
    decreases |chunks|
  {
    if chunks == [] then (s, [])
    else var (s', lines) := Feed(s, chunks[0]); Emitting(lines, FeedAll(s', chunks[1..]))
  }

  /** A new discipline that is fed chunk after chunk. */
  method ReadChunks(inputLimit: int, chunks: seq<seq<Byte>>) returns (d: Discipline, lines: seq<Line>)
    ensures fresh(d) && (d.Abs(), lines) == FeedAll(Fresh(inputLimit), chunks)
  {
    hide Feed;
    d := new Discipline(inputLimit);
    lines := [];
    assert chunks[0..] == chunks;
    EmittingTwice([], [], FeedAll(d.Abs(), chunks));
    for i := 0 to |chunks|
      invariant fresh(d)
      invariant Emitting(lines, FeedAll(d.Abs(), chunks[i..])) == FeedAll(Fresh(inputLimit), chunks)
    {
      assert chunks[i..][0] == chunks[i] && chunks[i..][1..] == chunks[i + 1..];
      var more := d.FeedChunk(chunks[i]);
      EmittingTwice(lines, more, FeedAll(d.Abs(), chunks[i + 1..]));
      lines := lines + more;
    }
    assert chunks[|chunks|..] == [] && lines + [] == lines;
  }

  function Joined(chunks: seq<seq<Byte>>): seq<Byte> {
    if chunks == [] then [] else chunks[0] + Joined(chunks[1..])
  }

  predicate AtCommand(s: State) { s.skipTelnet == 0 && !s.pendingIAC }

  /** A byte that leaves everything as it is. */
  predicate Inert(s: State, b: Byte) {
    b != IAC && TextStep(s.text, b) == (s.text, [])
  }

  /** If an IAC in command position comes first, what follows it is an option
      command, or nothing, or a byte that has no effect anyway. */
  predicate Harmless(s: State, data: seq<Byte>)
    requires data != []
  {
    AtCommand(s) && data[0] == IAC && |data| > 1 ==> IsOption(data[1]) || Inert(s, data[1])
  }

  /** Every position of the stream is harmless. */
  predicate Clean(s: State, data: seq<Byte>)
    decreases |data|
  {
    data == [] || (Harmless(s, data) && Clean(Step(s, data[0]).0, data[1..]))
  }

  /** At a harmless position looking ahead makes no difference. */
  lemma FeedStep(s: State, data: seq<Byte>)
    requires data != [] && Harmless(s, data)
    requires s.skipTelnet > 0 ==> !s.pendingIAC
    ensures Feed(s, data) == Emitting(Step(s, data[0]).1, Feed(Step(s, data[0]).0, data[1..]))
  {
    hide TextStep;
    var s', rest := Step(s, data[0]).0, data[1..];
    EmittingTwice([], [], Feed(s', rest));
    if s.skipTelnet == 0 && rest != [] && (s.pendingIAC || data[0] == IAC) {
      assert rest[1..] == data[2..];
      if s.pendingIAC {
        assert Feed(s', rest) == Feed(s.(pendingIAC := false), rest[if IsOption(data[0]) then 1 else 0..]);
      } else if IsOption(rest[0]) {
        if |rest| > 1 { assert rest[2..] == data[3..]; }
      } else {
        EmittingTwice([], [], Feed(s, rest[1..]));
        assert Feed(s, rest) == Feed(s, rest[1..]);
      }
    }
  }

  lemma {:induction false} FeedIsRun(s: State, data: seq<Byte>)
    requires Clean(s, data) && Tame(s)
    ensures Feed(s, data) == Run(s, data) && Tame(Run(s, data).0)
    decreases |data|
  {
    hide TextStep, Harmless;
    if data != [] {
      FeedStep(s, data);
      FeedIsRun(Step(s, data[0]).0, data[1..]);
    }
  }

  /** The states a fresh discipline can get to. */
  predicate Tame(s: State) { s.skipTelnet <= 1 && (s.skipTelnet > 0 ==> !s.pendingIAC) }

  lemma {:induction false} RunAppend(s: State, a: seq<Byte>, b: seq<Byte>)
    ensures Run(s, a + b) == Emitting(Run(s, a).1, Run(Run(s, a).0, b))
    decreases |a|
  {
    hide Step;
    if a == [] {
      assert a + b == b;
      EmittingTwice([], [], Run(s, b));
    } else {
      var (s', lines) := Step(s, a[0]);
      assert (a + b)[0] == a[0] && (a + b)[1..] == a[1..] + b;
      RunAppend(s', a[1..], b);
      EmittingTwice(lines, Run(s', a[1..]).1, Run(Run(s, a).0, b));
    }
  }

  lemma {:induction false} CleanParts(s: State, a: seq<Byte>, b: seq<Byte>)
    requires Clean(s, a + b)
    ensures Clean(s, a) && Clean(Run(s, a).0, b)
    decreases |a|
  {
    hide Step, TextStep;
    if a == [] {
      assert a + b == b;
    } else {
      assert (a + b)[0] == a[0] && (a + b)[1..] == a[1..] + b;
      if |a| > 1 { assert (a + b)[1] == a[1]; }
      CleanParts(Step(s, a[0]).0, a[1..], b);
    }
  }

  /** However a clean stream is cut, the lines and the final state are those of
      the byte-by-byte reading. */
  lemma {:induction false} ChunksAgree(s: State, chunks: seq<seq<Byte>>)
    requires Clean(s, Joined(chunks)) && Tame(s)
    ensures FeedAll(s, chunks) == Run(s, Joined(chunks))
    decreases |chunks|
  {
    hide Feed, Run;
    if chunks == [] {
      RunNone(s);
    } else {
      var rest := Joined(chunks[1..]);
      CleanParts(s, chunks[0], rest);
      FeedIsRun(s, chunks[0]);
      RunAppend(s, chunks[0], rest);
      ChunksAgree(Run(s, chunks[0]).0, chunks[1..]);
    }
  }

  lemma RunNone(s: State)
    ensures Run(s, []) == (s, [])
  {
  }

  lemma RunOne(s: State, b: Byte)
    ensures Run(s, [b]) == Step(s, b)
  {
    hide Step;
    assert [b][1..] == [];
    assert Step(s, b).1 + [] == Step(s, b).1;
    RunNone(Step(s, b).0);
  }

  // ----- the converse -----

  /** Where the first part is clean and ends outside a command, a chunk can be
      taken in two pieces. */
  lemma {:induction false} FeedSplits(s: State, a: seq<Byte>, b: seq<Byte>)
    requires Clean(s, a) && Tame(s) && AtCommand(Run(s, a).0)
    ensures Feed(s, a + b) == Emitting(Run(s, a).1, Feed(Run(s, a).0, b))
    decreases |a|
  {
    hide TextStep, Feed;
    if a == [] {
      assert a + b == b;
      EmittingTwice([], [], Feed(s, b));
    } else {
      var (s', lines) := Step(s, a[0]);
      assert (a + b)[0] == a[0] && (a + b)[1..] == a[1..] + b;
      if |a| > 1 { assert (a + b)[1] == a[1]; } else { RunNone(s'); }
      FeedStep(s, a + b);
      FeedSplits(s', a[1..], b);
      EmittingTwice(lines, Run(s', a[1..]).1, Feed(Run(s, a).0, b));
    }
  }

  /** The first position that is not harmless. */
  lemma {:induction false} FirstHarm(s: State, data: seq<Byte>) returns (i: nat)
    requires !Clean(s, data) && Tame(s)
    ensures i + 1 < |data| && Clean(s, data[..i + 1])
    ensures !Harmless(Run(s, data[..i]).0, data[i..]) && Clean(s, data[..i])
    decreases |data|
  {
    hide TextStep, Inert;
    if !Harmless(s, data) {
      i := 0;
      assert data[..0] == [] && data[0..] == data;
      RunNone(s);
      assert data[..1] == [data[0]] && [data[0]][1..] == [];
    } else {
      var rest := data[1..];
      var j := FirstHarm(Step(s, data[0]).0, rest);
      i := j + 1;
      assert data[..i][1..] == rest[..j] && data[i..] == rest[j..];
      assert data[..i + 1][1..] == rest[..j + 1];
      assert data[..i][0] == data[..i + 1][0] == data[0];
      if i > 1 { assert data[..i][1] == data[1]; }
      assert data[..i + 1][1] == data[1];
    }
  }

  /** A cut between an IAC and the byte after it drops that byte, where without
      the cut it is text. */
  lemma CutMatters(s: State, data: seq<Byte>) returns (k: nat)
    requires !Clean(s, data) && Tame(s)
    ensures 1 <= k < |data|
    ensures FeedAll(s, [data[..k], data[k..k + 1]]) != FeedAll(s, [data[..k + 1]])
  {
    hide Clean;
    var i := FirstHarm(s, data);
    var a, b := data[..i], data[i + 1];
    var (u, lines) := Run(s, a);
    k := i + 1;
    assert data[i..][0] == IAC && data[i..][1] == b;
    assert data[..k] == a + [IAC] && data[..k + 1] == a + [IAC, b] && data[k..k + 1] == [b];
    FeedIsRun(s, data[..k]);
    RunAppend(s, a, [IAC]);
    RunOne(u, IAC);
    FeedTwo(s, a + [IAC], [b]);
    FeedSplits(s, a, [IAC, b]);
    FeedOne(s, a + [IAC, b]);
    HarmShows(u, b);
  }

  lemma FeedOne(s: State, c: seq<Byte>)
    ensures FeedAll(s, [c]) == Feed(s, c)
  {
    hide Feed;
    assert [c][1..] == [];
    assert Feed(s, c).1 + [] == Feed(s, c).1;
  }

  lemma FeedTwo(s: State, c: seq<Byte>, d: seq<Byte>)
    ensures FeedAll(s, [c, d]) == Emitting(Feed(s, c).1, Feed(Feed(s, c).0, d))
  {
    hide Feed;
    assert [c, d][1..] == [d];
    FeedOne(Feed(s, c).0, d);
  }

  lemma HarmShows(u: State, b: Byte)
    requires AtCommand(u) && !IsOption(b) && !Inert(u, b)
    ensures Feed(u.(pendingIAC := true), [b]) == (u, [])
    ensures Feed(u, [IAC, b]) != (u, [])
  {
    hide TextStep;
    assert [b][1..] == [] && [IAC, b][1..] == [b];
    if b != IAC {
      var (t, lines) := TextStep(u.text, b);
      assert lines + [] == lines;
      assert Feed(u, [b]) == Emitting(lines, Feed(u.(text := t), []));
      assert Feed(u, [IAC, b]) == Feed(u, [b]) == (u.(text := t), lines);
    }
  }

  /** Chunking is invisible on a stream, at every point of it, exactly if the
      stream is clean. */
  lemma ChunkIndependence(s: State, data: seq<Byte>)
    requires Tame(s)
    ensures Clean(s, data) <==>
      forall chunks: seq<seq<Byte>> | Joined(chunks) <= data :: FeedAll(s, chunks) == FeedAll(s, [Joined(chunks)])
  {
    hide Clean, Feed, FeedAll, TextStep;
    if Clean(s, data) {
      forall chunks: seq<seq<Byte>> | Joined(chunks) <= data
        ensures FeedAll(s, chunks) == FeedAll(s, [Joined(chunks)])
      {
        var p := Joined(chunks);
        assert data == p + data[|p|..];
        CleanParts(s, p, data[|p|..]);
        ChunksAgree(s, chunks);
        FeedOne(s, p);
        FeedIsRun(s, p);
      }
    } else {
      var k := CutMatters(s, data);
      var chunks := [data[..k], data[k..k + 1]];
      JoinedTwo(data[..k], data[k..k + 1]);
      assert Joined(chunks) == data[..k + 1];
      assert FeedAll(s, chunks) != FeedAll(s, [Joined(chunks)]);
    }
  }

  lemma JoinedTwo(a: seq<Byte>, b: seq<Byte>)
    ensures Joined([a, b]) == a + b
  {
    assert [a, b][1..] == [b] && [b][1..] == [];
    assert Joined([b]) == b;
  }

  /** IAC 'A' in one chunk types an A, in two it does not. */
  lemma CutSwallowsLetter()
    ensures !Clean(Fresh(0), [IAC, 65])
    ensures FeedAll(Fresh(0), [[IAC, 65]]).0.text.buffer == [65]
    ensures FeedAll(Fresh(0), [[IAC], [65]]).0.text.buffer == []
  {
    hide Feed, FeedAll;
    var s := Fresh(0);
    var t := s.text.(buffer := [65], bufferBytes := 1);
    assert TextStep(s.text, 65) == (t, []) by {
      assert [] + [65] == [65] && [65][1..] == [];
      assert DecodeRune([65]) == Decoded(65, 1);
    }
    HarmShows(s, 65);
    FeedOne(s, [IAC, 65]);
    FeedTwo(s, [IAC], [65]);
    FeedLetter(s, t);
  }

  lemma FeedLetter(s: State, t: Typed)
    requires AtCommand(s) && TextStep(s.text, 65) == (t, [])
    ensures Feed(s, [IAC, 65]).0.text == t && Feed(s, [IAC]) == (s.(pendingIAC := true), [])
  {
    hide TextStep;
    assert [IAC, 65][1..] == [65] && [65][1..] == [];
    assert Feed(s, [65]) == Emitting([], Feed(s.(text := t), []));
  }
}
