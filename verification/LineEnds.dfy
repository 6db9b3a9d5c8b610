/** A line end leaves nothing of a line behind (internal/protocol/line.go): the
    next line is read as a new discipline would read it. */
module LineEnds {
  import opened Bytes
  import opened Utf8
  import opened LineDiscipline
  import opened LineChunks
  import opened LineEditor

  /** The text state of a new discipline, but for whether a CR was the last byte. */
  function NewLine(limit: int, sawCR: bool, invalid: nat): Typed { Typed(limit, [], 0, [], sawCR, invalid) }

  /** CR ends a line, and so does LF unless it follows a CR. */
  predicate Ends(t: Typed, b: Byte) { b == 13 || (b == 10 && !t.sawCR) }

  /** In any state a line end emits the buffer and empties buffer and pending
      bytes; the LF of CR LF does nothing; and backspaces forget pending bytes. */
  lemma EndEmpties(t: Typed, b: Byte)
    ensures Ends(t, b) ==> TextStep(t, b) == (NewLine(t.limit, b == 13, t.invalid), [t.buffer])
    ensures b == 10 && t.sawCR ==> TextStep(t, b) == (t.(sawCR := false), [])
    ensures b == 8 || b == 0x7F ==>
      && TextStep(t, b).0.pending == [] && TextStep(t, b).1 == [] && !TextStep(t, b).0.sawCR
      && TextStep(t, b).0.buffer == if t.buffer == [] then [] else t.buffer[..|t.buffer| - 1]
  {
    BackspaceKeeps(t.(sawCR := false, pending := []));
  }

  /** Controls that are none of these do nothing, nor does a lone 155; the other
      bytes go to assembly, and none of them emits a line. */
  lemma OtherControls(t: Typed, b: Byte)
    requires b != 13 && b != 10 && b != 8 && b != 0x7F
    ensures TextStep(t, b).1 == [] && TextStep(t, b).0.limit == t.limit && !TextStep(t, b).0.sawCR
    ensures b < 32 || (b == 155 && t.pending == []) ==> TextStep(t, b).0 == t.(sawCR := false)
    ensures b >= 32 && b != 155 ==> TextStep(t, b).0 == AcceptByte(t.(sawCR := false), b)
    ensures b == 155 && t.pending != [] ==> TextStep(t, b).0 == AcceptByte(t.(sawCR := false), b)
  {
  }

  lemma LimitStays(t: Typed, b: Byte)
    ensures TextStep(t, b).0.limit == t.limit
  {
    EndEmpties(t, b);
    if b != 13 && b != 10 && b != 8 && b != 0x7F { OtherControls(t, b); }
  }

  lemma {:induction false} LimitKept(t: Typed, data: seq<Byte>)
    ensures TextRun(t, data).0.limit == t.limit
    decreases |data|
  {
    hide TextStep;
    if data != [] {
      LimitStays(t, data[0]);
      LimitKept(TextStep(t, data[0]).0, data[1..]);
    }
  }

  // ----- the count of invalid bytes is only a count -----

  lemma StepIgnoresCount(t: Typed, n: nat, b: Byte)
    ensures var (u, lines) := TextStep(t, b);
      var (v, lines') := TextStep(t.(invalid := n), b);
      lines == lines' && v == u.(invalid := v.invalid)
  {
    hide DecodeRune, FullRune, MakeRoom;
    var p := t.pending + [b];
    if FullRune(p) { RoomIgnoresCount(t.(sawCR := false), n, RuneLen(DecodeRune(p).rune)); }
  }

  lemma {:induction false} RoomIgnoresCount(t: Typed, n: nat, k: nat)
    ensures MakeRoom(t.(invalid := n), k) == MakeRoom(t, k).(invalid := n)
    decreases |t.buffer|
  {
    if t.buffer != [] && t.bufferBytes + k > t.limit {
      RoomIgnoresCount(t.(buffer := t.buffer[1..], bufferBytes := t.bufferBytes - RuneLen(t.buffer[0])), n, k);
    }
  }

  lemma {:induction false} RunIgnoresCount(t: Typed, n: nat, data: seq<Byte>)
    ensures TextRun(t.(invalid := n), data).1 == TextRun(t, data).1
    decreases |data|
  {
    hide TextStep;
    if data != [] {
      StepIgnoresCount(t, n, data[0]);
      var u, v := TextStep(t, data[0]).0, TextStep(t.(invalid := n), data[0]).0;
      RunIgnoresCount(u, v.invalid, data[1..]);
    }
  }

  // ----- whole runs -----

  /** After any bytes and a line end, the lines that follow are those of a new
      discipline with the same limit. */
  lemma NextLinesAreNew(t: Typed, data: seq<Byte>, end: Byte, more: seq<Byte>)
    requires Ends(TextRun(t, data).0, end)
    ensures TextRun(t, data + [end] + more).1
      == TextRun(t, data).1 + [TextRun(t, data).0.buffer] + TextRun(NewLine(t.limit, end == 13, 0), more).1
  {
    hide TextStep, TextRun;
    var u := TextRun(t, data).0;
    EndEmpties(u, end);
    LimitKept(t, data);
    TextRunAppend(t, data + [end], more);
    TextRunAppend(t, data, [end]);
    TextRunOne(u, end);
    RunIgnoresCount(NewLine(t.limit, end == 13, 0), u.invalid, more);
    assert NewLine(t.limit, end == 13, 0).(invalid := u.invalid) == NewLine(t.limit, end == 13, u.invalid);
  }

  /** The same for chunks: if the last byte of a chunk that is taken as text ends
      a line, all chunks after it are read as by a new discipline that is as far
      with its Telnet commands. */
  lemma NextChunksAreNew(s: State, data: seq<Byte>, p: seq<Byte>, end: Byte, more: seq<Byte>)
    requires Reaching(s, data) == p + [end] && Ends(TextRun(s.text, p).0, end)
    ensures var s' := Feed(s, data).0;
      && s'.text == NewLine(s.text.limit, end == 13, s'.text.invalid)
      && Feed(s', more).1 == Feed(s'.(text := NewLine(s.text.limit, end == 13, 0)), more).1
  {
    hide TextStep, TextRun, Feed, Reaching;
    var s', u := Feed(s, data).0, TextRun(s.text, p).0;
    var n := NewLine(s.text.limit, end == 13, 0);
    FeedIsText(s, data);
    TextRunAppend(s.text, p, [end]);
    TextRunOne(u, end);
    EndEmpties(u, end);
    LimitKept(s.text, p);
    FeedIsText(s', more);
    FeedIsText(s'.(text := n), more);
    ReachingText(s', n, more);
    RunIgnoresCount(n, s'.text.invalid, Reaching(s', more));
    assert n.(invalid := s'.text.invalid) == s'.text;
  }

  /** E4 CR 'A' CR are an empty line and the line A. */
  lemma LetterKept(t: Typed)
    requires t == Fresh(0).text
    ensures TextRun(t, [0xE4, CR, 65, CR]).1 == [[], [65]]
  {
    hide TextStep, TextRun;
    LetterStates(t);
    TextRunOne(t, 0xE4);
    var u := NewLine(t.limit, true, 0);
    NextLinesAreNew(t, [0xE4], CR, [65, CR]);
    assert [0xE4] + [CR] + [65, CR] == [0xE4, CR, 65, CR];
    LetterTyped(u);
    TextRunOne(u, 65);
    NextLinesAreNew(u, [65], CR, []);
    TextRunNone(NewLine(u.limit, true, 0));
    assert [65] + [CR] + [] == [65, CR];
  }

  lemma LetterTyped(u: Typed)
    requires u.limit >= 1 && u.buffer == [] && u.bufferBytes == 0 && u.pending == []
    ensures TextStep(u, 65).0.buffer == [65] && TextStep(u, 65).1 == []
  {
    assert [] + [65] == [65];
    assert DecodeRune([65]) == Decoded(65, 1);
  }

  /** A limit that is not positive stands for 1024 bytes. */
  lemma DefaultLimit(inputLimit: int)
    ensures Fresh(inputLimit) == State(NewLine(if inputLimit > 0 then inputLimit else 1024, false, 0), false, 0)
  {
  }
}
