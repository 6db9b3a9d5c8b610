/** What the line discipline of internal/protocol/line.go does, seen as text:
    the reference editor it refines, and what holds on any bytes at all. */
module LineEditor {
  import opened Bytes
  import opened Utf8
  import opened LineDiscipline
  import opened LineChunks

  // ----- the reference editor -----

  /** The longest suffix of a text that takes at most `limit` bytes. */
  function Newest(limit: int, rs: Line): Line
    requires limit >= 0
  {
    if ByteLen(rs) <= limit then rs else Newest(limit, rs[1..])
  }

  datatype Editor = Editor(line: Line, sawCR: bool)

  /** CR, LF and CR LF end a line, BS and DEL take back a rune, other controls
      do nothing, and of what is typed only the newest runes are kept. */
  function Edit(limit: int, e: Editor, r: Rune): (Editor, seq<Line>)
    requires limit >= 0
  {
    if r == LF && e.sawCR then (e.(sawCR := false), [])
    else if r == CR || r == LF then (Editor([], r == CR), [e.line])
    else if r == BS || r == DEL then
      (Editor(if e.line == [] then [] else e.line[..|e.line| - 1], false), [])
    else if r < 32 then (e.(sawCR := false), [])
    else (Editor(Newest(limit, e.line + [r]), false), [])
  }

  function EditAll(limit: int, e: Editor, rs: Line): (Editor, seq<Line>)
    requires limit >= 0
    decreases |rs|
  {
    if rs == [] then (e, [])
    else Emitting(Edit(limit, e, rs[0]).1, EditAll(limit, Edit(limit, e, rs[0]).0, rs[1..]))
  }

  // ----- the invariant, on any bytes -----

  /** `bufferBytes` is the length of the buffer in bytes and within the limit,
      and at most three bytes wait for the rest of their rune. */
  ghost predicate Neat(t: Typed) {
    && 0 < t.limit
    && t.bufferBytes == ByteLen(t.buffer) <= t.limit
    && |t.pending| <= 3
  }

  lemma {:induction false} ByteLenAppend(a: Line, b: Line)
    ensures ByteLen(a + b) == ByteLen(a) + ByteLen(b)
  {
    if a == [] {
      assert a + b == b;
    } else {
      assert (a + b)[1..] == a[1..] + b;
      ByteLenAppend(a[1..], b);
    }
  }

  lemma ByteLenOne(r: Rune)
    ensures ByteLen([r]) == RuneLen(r)
  {
    assert [r][1..] == [];
  }

  /** `MakeRoom` leaves the longest suffix that fits beside n more bytes. */
  lemma {:induction false} RoomIsNewest(t: Typed, n: nat)
    requires t.bufferBytes == ByteLen(t.buffer)
    ensures var u := MakeRoom(t, n);
      && u.bufferBytes == ByteLen(u.buffer)
      && (n > t.limit ==> u.buffer == [])
      && (n <= t.limit ==> u.buffer == Newest(t.limit - n, t.buffer) && u.bufferBytes + n <= t.limit)
    decreases |t.buffer|
  {
    if t.buffer != [] && t.bufferBytes + n > t.limit {
      RoomIsNewest(t.(buffer := t.buffer[1..], bufferBytes := t.bufferBytes - RuneLen(t.buffer[0])), n);
    }
  }

  lemma {:induction false} NewestAppend(limit: int, rs: Line, r: Rune)
    requires RuneLen(r) <= limit
    ensures Newest(limit, rs + [r]) == Newest(limit - RuneLen(r), rs) + [r]
    decreases |rs|
  {
    ByteLenAppend(rs, [r]);
    ByteLenOne(r);
    if ByteLen(rs + [r]) > limit {
      assert (rs + [r])[1..] == rs[1..] + [r];
      NewestAppend(limit, rs[1..], r);
    }
  }

  lemma {:induction false} NewestTooBig(limit: int, rs: Line, r: Rune)
    requires 0 <= limit < RuneLen(r)
    ensures Newest(limit, rs + [r]) == []
    decreases |rs|
  {
    ByteLenAppend(rs, [r]);
    ByteLenOne(r);
    if rs == [] {
      assert (rs + [r])[1..] == [];
    } else {
      assert (rs + [r])[1..] == rs[1..] + [r];
      NewestTooBig(limit, rs[1..], r);
    }
  }

  /** `appendRune` keeps the newest runes within the limit. */
  lemma AppendIsNewest(t: Typed, r: Rune)
    requires Neat(t)
    ensures AppendRune(t, r).buffer == Newest(t.limit, t.buffer + [r])
    ensures AppendRune(t, r) == t.(buffer := AppendRune(t, r).buffer, bufferBytes := ByteLen(AppendRune(t, r).buffer))
    ensures Neat(AppendRune(t, r))
  {
    RoomIsNewest(t, RuneLen(r));
    if RuneLen(r) <= t.limit {
      NewestAppend(t.limit, t.buffer, r);
      ByteLenAppend(Newest(t.limit - RuneLen(r), t.buffer), [r]);
      ByteLenOne(r);
    } else {
      NewestTooBig(t.limit, t.buffer, r);
    }
  }

  lemma BackspaceNeat(t: Typed)
    requires Neat(t)
    ensures Neat(Backspace(t))
    ensures t.buffer != [] ==> Backspace(t).buffer == t.buffer[..|t.buffer| - 1]
  {
    if t.buffer != [] {
      var n := |t.buffer| - 1;
      assert t.buffer == t.buffer[..n] + [t.buffer[n]];
      ByteLenAppend(t.buffer[..n], [t.buffer[n]]);
      ByteLenOne(t.buffer[n]);
    }
  }

  lemma WaitingIsShort(p: seq<Byte>)
    ensures !FullRune(p) ==> |p| <= 3
  {
  }

  lemma AcceptNeat(t: Typed, b: Byte)
    requires Neat(t)
    ensures Neat(AcceptByte(t, b))
  {
    hide AppendRune, FullRune, DecodeRune;
    var p := t.pending + [b];
    WaitingIsShort(p);
    if FullRune(p) { AppendIsNewest(t, DecodeRune(p).rune); }
  }

  /** Any byte of text keeps the state neat. */
  lemma TextStepNeat(t: Typed, b: Byte)
    requires Neat(t)
    ensures Neat(TextStep(t, b).0)
  {
    hide AcceptByte, Backspace;
    if b == BS || b == DEL {
      BackspaceNeat(t.(sawCR := false, pending := []));
    } else {
      AcceptNeat(t.(sawCR := false), b);
    }
  }

  /** Any chunk whatever keeps the whole state within its bounds. */
  lemma {:induction false} FeedNeat(s: State, data: seq<Byte>)
    requires Neat(s.text) && Tame(s)
    ensures Neat(Feed(s, data).0.text) && Tame(Feed(s, data).0)
    decreases |data|
  {
    hide TextStep, Neat;
    if data != [] {
      if s.skipTelnet > 0 {
        FeedNeat(s.(skipTelnet := s.skipTelnet - 1), data[1..]);
      } else if s.pendingIAC {
        FeedNeat(s.(pendingIAC := false), data[1..]);
        if |data| > 1 { FeedNeat(s.(pendingIAC := false), data[2..]); }
      } else if data[0] == IAC {
        FeedNeat(s, data[1..]);
        if |data| > 2 { FeedNeat(s, data[3..]); }
      } else {
        TextStepNeat(s.text, data[0]);
        FeedNeat(s.(text := TextStep(s.text, data[0]).0), data[1..]);
      }
    }
  }

  /** `Newest` is the longest suffix within the limit: dropping one rune fewer
      would not do. */
  lemma {:induction false} NewestIsLongest(limit: int, rs: Line) returns (k: nat)
    requires limit >= 0
    ensures k <= |rs| && Newest(limit, rs) == rs[k..] && ByteLen(rs[k..]) <= limit
    ensures k > 0 ==> ByteLen(rs[k - 1..]) > limit
    decreases |rs|
  {
    k := 0;
    assert rs[0..] == rs;
    if ByteLen(rs) > limit {
      var j := NewestIsLongest(limit, rs[1..]);
      k := j + 1;
      assert rs[1..][j..] == rs[k..];
      if j > 0 { assert rs[1..][j - 1..] == rs[k - 1..]; }
    }
  }

  // ----- refinement -----

  function TextRun(t: Typed, data: seq<Byte>): (Typed, seq<Line>)
    decreases |data|
  {
    if data == [] then (t, [])
    else Emitting(TextStep(t, data[0]).1, TextRun(TextStep(t, data[0]).0, data[1..]))
  }

  lemma {:induction false} TextRunAppend(t: Typed, a: seq<Byte>, b: seq<Byte>)
    ensures TextRun(t, a + b) == Emitting(TextRun(t, a).1, TextRun(TextRun(t, a).0, b))
    decreases |a|
  {
    hide TextStep;
    if a == [] {
      assert a + b == b;
      EmittingTwice([], [], TextRun(t, b));
    } else {
      var (t', lines) := TextStep(t, a[0]);
      assert (a + b)[0] == a[0] && (a + b)[1..] == a[1..] + b;
      TextRunAppend(t', a[1..], b);
      EmittingTwice(lines, TextRun(t', a[1..]).1, TextRun(TextRun(t, a).0, b));
    }
  }

  lemma TextRunOne(t: Typed, b: Byte)
    ensures TextRun(t, [b]) == TextStep(t, b)
  {
    hide TextStep;
    assert [b][1..] == [];
    assert TextStep(t, b).1 + [] == TextStep(t, b).1;
  }

  /** No rune is half read. */
  ghost predicate Settled(t: Typed) { Neat(t) && t.pending == [] }

  /** The text state that shows an editor. */
  function Showing(t: Typed, e: Editor): Typed {
    t.(buffer := e.line, bufferBytes := ByteLen(e.line), pending := [], sawCR := e.sawCR)
  }

  function EditorOf(t: Typed): Editor { Editor(t.buffer, t.sawCR) }

  /** The leading bytes of a longer encoding are put aside one by one. */
  lemma {:induction false} PrefixWaits(t: Typed, r: Rune, k: nat)
    requires Settled(t) && IsScalar(r) && r > 0x7F && 0 < k < RuneLen(r)
    ensures TextRun(t, Encode(r)[..k]) == (t.(pending := Encode(r)[..k], sawCR := false), [])
  {
    hide TextStep;
    EncodeDecodes(r);
    var s := Encode(r);
    assert s[..k] == s[..k - 1] + [s[k - 1]];
    TextRunAppend(t, s[..k - 1], [s[k - 1]]);
    if k == 1 {
      assert s[..0] == [];
      assert [] + [s[0]] == [s[0]];
      WaitStep(t, s[0], s[..1]);
    } else {
      PrefixWaits(t, r, k - 1);
      WaitStep(t.(pending := s[..k - 1], sawCR := false), s[k - 1], s[..k]);
    }
  }

  lemma WaitStep(t: Typed, b: Byte, p: seq<Byte>)
    requires b >= 0x80 && (b == CSI ==> t.pending != [])
    requires p == t.pending + [b] && !FullRune(p)
    ensures TextRun(t, [b]) == (t.(pending := p, sawCR := false), [])
  {
    TextRunOne(t, b);
    assert TextStep(t, b) == (t.(pending := p, sawCR := false), []);
  }

  /** Bytes of a longer encoding are neither controls nor a lone CSI. */
  lemma EncodeBytes(r: Rune)
    requires IsScalar(r)
    ensures r > 0x7F ==> Encode(r)[0] >= 0xC0 && forall i :: 0 <= i < RuneLen(r) ==> 0x80 <= Encode(r)[i] < 0xF8
    ensures forall i :: 0 <= i < RuneLen(r) ==> Encode(r)[i] != IAC
  {
  }

  /** The bytes of one rune do what the editor does with the rune. */
  lemma RuneRefines(t: Typed, r: Rune)
    requires Settled(t) && IsScalar(r)
    ensures TextRun(t, Encode(r)) ==
      (Showing(t, Edit(t.limit, EditorOf(t), r).0), Edit(t.limit, EditorOf(t), r).1)
    ensures Settled(TextRun(t, Encode(r)).0)
  {
    hide TextStep, TextRun, Encode, FullRune, DecodeRune, Newest;
    var s, n := Encode(r), RuneLen(r);
    if n == 1 {
      OneByteRefines(t, r);
    } else {
      assert s == s[..n - 1] + [s[n - 1]];
      TextRunAppend(t, s[..n - 1], [s[n - 1]]);
      PrefixWaits(t, r, n - 1);
      LastByteRefines(t, r);
      EmittingTwice([], [], TextRun(t.(pending := s[..n - 1], sawCR := false), [s[n - 1]]));
    }
  }

  lemma OneByteRefines(t: Typed, r: Rune)
    requires Settled(t) && r <= 0x7F
    ensures Encode(r) == [r]
    ensures TextRun(t, [r]) == (Showing(t, Edit(t.limit, EditorOf(t), r).0), Edit(t.limit, EditorOf(t), r).1)
    ensures Settled(TextRun(t, [r]).0)
  {
    hide AppendRune, Newest, TextRun;
    TextRunOne(t, r);
    TextStepNeat(t, r);
    if r == BS || r == DEL {
      BackspaceNeat(t.(sawCR := false));
    } else if r >= 32 {
      PrintableRefines(t, r);
    }
  }

  lemma PrintableRefines(t: Typed, r: Rune)
    requires Settled(t) && 32 <= r < DEL
    ensures TextStep(t, r) == (Showing(t, Editor(Newest(t.limit, t.buffer + [r]), false)), [])
  {
    hide AppendRune, Newest;
    assert t.pending + [r] == [r] && [r][1..] == [];
    assert FullRune([r]) && DecodeRune([r]) == Decoded(r, 1);
    AppendIsNewest(t.(sawCR := false), r);
  }

  lemma LastByteRefines(t: Typed, r: Rune)
    requires Settled(t) && IsScalar(r) && r > 0x7F
    ensures var s, n := Encode(r), RuneLen(r);
      TextRun(t.(pending := s[..n - 1], sawCR := false), [s[n - 1]])
      == (Showing(t, Editor(Newest(t.limit, t.buffer + [r]), false)), [])
    ensures Neat(Showing(t, Editor(Newest(t.limit, t.buffer + [r]), false)))
  {
    hide AppendRune, Newest, Encode, FullRune, DecodeRune;
    var s, n := Encode(r), RuneLen(r);
    var u := t.(pending := s[..n - 1], sawCR := false);
    var b := s[n - 1];
    EncodeDecodes(r);
    EncodeBytes(r);
    TextRunOne(u, b);
    assert u.pending + [b] == s;
    assert s[n..] == [];
    AppendIsNewest(u, r);
    assert TextStep(u, b) == (AppendRune(u, r).(pending := []), []);
  }

  function EncodeAll(rs: Line): seq<Byte>
    requires forall i :: 0 <= i < |rs| ==> IsScalar(rs[i])
  {
    if rs == [] then [] else Encode(rs[0]) + EncodeAll(rs[1..])
  }

  lemma {:induction false} TextRefines(t: Typed, rs: Line)
    requires Settled(t) && forall i :: 0 <= i < |rs| ==> IsScalar(rs[i])
    ensures TextRun(t, EncodeAll(rs)) ==
      (Showing(t, EditAll(t.limit, EditorOf(t), rs).0), EditAll(t.limit, EditorOf(t), rs).1)
    decreases |rs|
  {
    hide TextStep, TextRun, Encode, Edit;
    if rs == [] {
      TextRunNone(t);
    } else {
      var (t', lines) := TextRun(t, Encode(rs[0]));
      RuneRefines(t, rs[0]);
      TextRunAppend(t, Encode(rs[0]), EncodeAll(rs[1..]));
      TextRefines(t', rs[1..]);
      assert EditorOf(t') == Edit(t.limit, EditorOf(t), rs[0]).0;
    }
  }

  lemma TextRunNone(t: Typed)
    ensures TextRun(t, []) == (t, [])
  {
  }

  // ----- Telnet options between the bytes of the text -----

  datatype Item = Data(b: Byte) | Option(cmd: Byte, opt: Byte)

  /** The option commands of RFC 854. */
  const WILL: Byte := 251
  const WONT: Byte := 252
  const DO: Byte := 253
  const DONT: Byte := 254

  predicate WellFormed(items: seq<Item>) {
    forall i :: 0 <= i < |items| ==>
      match items[i]
      case Data(b) => b != 255
      case Option(cmd, _) => cmd == WILL || cmd == WONT || cmd == DO || cmd == DONT
  }

  /** Before any other byte an IAC is dropped, and the byte is read as if alone. */
  lemma OtherCommands(s: State, b: Byte, rest: seq<Byte>)
    requires AtCommand(s) && b != WILL && b != WONT && b != DO && b != DONT
    ensures Feed(s, [255, b] + rest) == Feed(s, [b] + rest)
  {
    hide TextStep;
    assert ([255, b] + rest)[1..] == [b] + rest;
  }

  /** The stream that goes over the wire, and the text that is in it. */
  function Wire(items: seq<Item>): seq<Byte> {
    if items == [] then []
    else (match items[0] case Data(b) => [b] case Option(cmd, opt) => [IAC, cmd, opt]) + Wire(items[1..])
  }

  function TextOf(items: seq<Item>): seq<Byte> {
    if items == [] then []
    else (match items[0] case Data(b) => [b] case Option(_, _) => []) + TextOf(items[1..])
  }

  /** Complete options vanish, wherever they stand, and such a stream is clean. */
  lemma {:induction false} OptionsVanish(s: State, items: seq<Item>)
    requires AtCommand(s) && WellFormed(items)
    ensures Clean(s, Wire(items))
    ensures Run(s, Wire(items)) == (s.(text := TextRun(s.text, TextOf(items)).0), TextRun(s.text, TextOf(items)).1)
    decreases |items|
  {
    hide TextStep;
    if items != [] {
      var rest := Wire(items[1..]);
      match items[0]
      case Data(b) =>
        var (t, lines) := TextStep(s.text, b);
        assert Wire(items)[1..] == rest && TextOf(items)[1..] == TextOf(items[1..]);
        OptionsVanish(s.(text := t), items[1..]);
      case Option(cmd, opt) =>
        OptionsVanish(s, items[1..]);
        assert TextOf(items) == TextOf(items[1..]);
        OptionSkipped(s, cmd, opt, rest);
        assert Wire(items) == [IAC, cmd, opt] + rest;
    }
  }

  lemma OptionSkipped(s: State, cmd: Byte, opt: Byte, rest: seq<Byte>)
    requires AtCommand(s) && IsOption(cmd)
    ensures Run(s, [IAC, cmd, opt] + rest) == Run(s, rest)
    ensures Clean(s, [IAC, cmd, opt] + rest) == Clean(s, rest)
  {
    hide TextStep;
    var d := [IAC, cmd, opt] + rest;
    assert d[1..] == [cmd, opt] + rest && d[1..][1..] == [opt] + rest && d[1..][1..][1..] == rest;
    var s1, s2 := s.(pendingIAC := true), s.(skipTelnet := 1);
    EmittingTwice([], [], Run(s, rest));
    assert Step(s2, opt) == (s, []) && Run(s2, d[1..][1..]) == Run(s, rest);
    assert Step(s1, cmd) == (s2, []) && Run(s1, d[1..]) == Run(s, rest);
    assert Clean(s2, d[1..][1..]) == Clean(s, rest);
    assert Clean(s1, d[1..]) == Clean(s, rest);
  }

  /** The line discipline refines the editor: for any text, in any interleaving
      with complete Telnet options, cut into chunks in any way, `Feed` emits the
      editor's lines and ends with the editor's line in its buffer. */
  lemma RefinesEditor(s: State, rs: Line, items: seq<Item>, chunks: seq<seq<Byte>>)
    requires AtCommand(s) && Settled(s.text)
    requires forall i :: 0 <= i < |rs| ==> IsScalar(rs[i])
    requires WellFormed(items) && TextOf(items) == EncodeAll(rs)
    requires Joined(chunks) == Wire(items)
    ensures FeedAll(s, chunks) ==
      var (e, lines) := EditAll(s.text.limit, EditorOf(s.text), rs);
      (s.(text := Showing(s.text, e)), lines)
  {
    hide Clean, Run, TextRun, FeedAll, EditAll;
    OptionsVanish(s, items);
    ChunksAgree(s, chunks);
    TextRefines(s.text, rs);
  }

  /** A text typed to a new discipline, in any cutting and with Telnet options
      anywhere, comes out as the editor's lines. */
  method ReadText(inputLimit: int, chunks: seq<seq<Byte>>, ghost rs: Line, ghost items: seq<Item>) returns (lines: seq<Line>)
    requires forall i :: 0 <= i < |rs| ==> IsScalar(rs[i])
    requires WellFormed(items) && TextOf(items) == EncodeAll(rs) && Joined(chunks) == Wire(items)
    ensures lines == EditAll(Fresh(inputLimit).text.limit, Editor([], false), rs).1
  {
    hide FeedAll, EditAll;
    var d;
    d, lines := ReadChunks(inputLimit, chunks);
    RefinesEditor(Fresh(inputLimit), rs, items, chunks);
  }

  // ----- what any chunk comes down to -----

  /** The bytes of a chunk that are taken as text. */
  function Reaching(s: State, data: seq<Byte>): seq<Byte>
    decreases |data|
  {
    if data == [] then [] else
      var b := data[0];
      if s.skipTelnet > 0 then Reaching(s.(skipTelnet := s.skipTelnet - 1), data[1..])
      else if s.pendingIAC then
        var s' := s.(pendingIAC := false);
        if !IsOption(b) then Reaching(s', data[1..]) else if |data| > 1 then Reaching(s', data[2..]) else []
      else if b == IAC then
        if |data| == 1 then []
        else if !IsOption(data[1]) then Reaching(s, data[1..])
        else if |data| > 2 then Reaching(s, data[3..]) else []
      else [b] + Reaching(s, data[1..])
  }

  lemma {:induction false} ReachingText(s: State, t: Typed, data: seq<Byte>)
    ensures Reaching(s.(text := t), data) == Reaching(s, data)
    decreases |data|
  {
    if data != [] {
      if s.skipTelnet > 0 {
        ReachingText(s.(skipTelnet := s.skipTelnet - 1), t, data[1..]);
      } else if s.pendingIAC {
        ReachingText(s.(pendingIAC := false), t, data[1..]);
        if |data| > 1 { ReachingText(s.(pendingIAC := false), t, data[2..]); }
      } else {
        ReachingText(s, t, data[1..]);
        if |data| > 2 { ReachingText(s, t, data[3..]); }
      }
    }
  }

  lemma {:induction false} FeedIsText(s: State, data: seq<Byte>)
    ensures Feed(s, data).0.text == TextRun(s.text, Reaching(s, data)).0
    ensures Feed(s, data).1 == TextRun(s.text, Reaching(s, data)).1
    decreases |data|
  {
    hide TextStep;
    if data != [] {
      if s.skipTelnet > 0 {
        FeedIsText(s.(skipTelnet := s.skipTelnet - 1), data[1..]);
      } else if s.pendingIAC {
        FeedIsText(s.(pendingIAC := false), data[1..]);
        if |data| > 1 { FeedIsText(s.(pendingIAC := false), data[2..]); }
      } else if data[0] == IAC {
        FeedIsText(s, data[1..]);
        if |data| > 2 { FeedIsText(s, data[3..]); }
      } else {
        var t := TextStep(s.text, data[0]).0;
        FeedIsText(s.(text := t), data[1..]);
        ReachingText(s, t, data[1..]);
        assert ([data[0]] + Reaching(s, data[1..]))[1..] == Reaching(s, data[1..]);
      }
    }
  }

  // ----- every byte accounted for -----

  predicate ForAssembly(t: Typed, b: Byte) {
    b >= 32 && b != DEL && !(b == CSI && t.pending == [])
  }

  /** The rune a byte of text completes, if any. */
  function Completed(t: Typed, b: Byte): Line {
    var p := t.pending + [b];
    if ForAssembly(t, b) && FullRune(p) && DecodeRune(p) != INVALID then [DecodeRune(p).rune] else []
  }

  /** Bytes given to UTF-8 assembly, runes assembled, and bytes thrown away
      half assembled by a line end or a backspace. */
  datatype Ledger = Ledger(given: nat, runes: Line, discarded: nat)

  function Accounts(t: Typed, data: seq<Byte>): Ledger
    decreases |data|
  {
    if data == [] then Ledger(0, [], 0) else
      var b, t' := data[0], TextStep(t, data[0]).0;
      var l := Accounts(t', data[1..]);
      Ledger((if ForAssembly(t, b) then 1 else 0) + l.given,
             Completed(t, b) + l.runes,
             (if b < 32 || b == DEL then |t.pending| - |t'.pending| else 0) + l.discarded)
  }

  lemma StepAccounts(t: Typed, b: Byte)
    requires Neat(t)
    ensures var t' := TextStep(t, b).0;
      (if ForAssembly(t, b) then 1 else 0) == ByteLen(Completed(t, b)) + (t'.invalid - t.invalid)
        + (|t'.pending| - |t.pending|) + (if b < 32 || b == DEL then |t.pending| - |t'.pending| else 0)
  {
    hide Backspace, AppendRune;
    var p := t.pending + [b];
    if b == BS || b == DEL {
      BackspaceKeeps(t.(sawCR := false, pending := []));
    } else if ForAssembly(t, b) && FullRune(p) && DecodeRune(p) != INVALID {
      AppendIsNewest(t.(sawCR := false), DecodeRune(p).rune);
      ByteLenOne(DecodeRune(p).rune);
    }
  }

  lemma BackspaceKeeps(t: Typed)
    ensures Backspace(t).pending == t.pending && Backspace(t).invalid == t.invalid
  {
  }

  /** For any bytes whatever: each byte given to assembly ends up in a rune, is
      counted invalid, is still pending, or was discarded with its line. */
  lemma {:induction false} EveryByteAccounted(t: Typed, data: seq<Byte>)
    requires Neat(t)
    ensures var l, t' := Accounts(t, data), TextRun(t, data).0;
      l.given == ByteLen(l.runes) + (t'.invalid - t.invalid) + (|t'.pending| - |t.pending|) + l.discarded
    decreases |data|
  {
    hide TextStep, Completed, ForAssembly, Neat;
    if data != [] {
      var t' := TextStep(t, data[0]).0;
      StepAccounts(t, data[0]);
      TextStepNeat(t, data[0]);
      EveryByteAccounted(t', data[1..]);
      ByteLenAppend(Completed(t, data[0]), Accounts(t', data[1..]).runes);
    }
  }

  // ----- text that is not valid UTF-8 -----

  /** The runes of a text with its invalid bytes left out, up to an unfinished end. */
  function Lossy(p: seq<Byte>): Line
    decreases |p|
  {
    if !FullRune(p) then [] else
      var d := DecodeRune(p);
      (if d == INVALID then [] else [d.rune]) + Lossy(p[d.size..])
  }

  predicate Printable(data: seq<Byte>) {
    forall i :: 0 <= i < |data| ==> data[i] >= 32 && data[i] != DEL
  }

  /** On printable bytes, valid or not, the runes assembled are those of the
      text, except that those still in the pending bytes are missing: after an
      invalid byte is dropped, what follows it waits for one byte more. */
  lemma {:induction false} AssemblyLags(t: Typed, data: seq<Byte>)
    requires Neat(t) && Printable(data)
    ensures Accounts(t, data).runes + Lossy(TextRun(t, data).0.pending) == Lossy(t.pending + data)
    decreases |data|
  {
    hide TextStep, Completed, Neat, Lossy;
    if data == [] {
      assert t.pending + data == t.pending;
    } else {
      var b, t' := data[0], TextStep(t, data[0]).0;
      TextStepNeat(t, b);
      AssemblyLags(t', data[1..]);
      LagStep(t, b, data[1..]);
      assert t.pending + data == t.pending + [b] + data[1..];
      assert Completed(t, b) + (Accounts(t', data[1..]).runes + Lossy(TextRun(t, data).0.pending))
          == Completed(t, b) + Accounts(t', data[1..]).runes + Lossy(TextRun(t, data).0.pending);
    }
  }

  lemma LagStep(t: Typed, b: Byte, rest: seq<Byte>)
    requires Neat(t) && b >= 32 && b != DEL
    ensures Lossy(t.pending + [b] + rest) == Completed(t, b) + Lossy(TextStep(t, b).0.pending + rest)
  {
    hide Lossy, FullRune, DecodeRune, AppendRune, Neat;
    var p := t.pending + [b];
    if b == CSI && t.pending == [] {
      LoneCSI(rest);
      assert p == [CSI] && t.pending + rest == rest;
    } else if FullRune(p) {
      var d := DecodeRune(p);
      LossyStep(p, rest);
      if d != INVALID { AppendPending(t.(sawCR := false), d.rune); }
    }
  }

  lemma LossyStep(p: seq<Byte>, rest: seq<Byte>)
    requires FullRune(p)
    ensures var d := DecodeRune(p);
      Lossy(p + rest) == (if d == INVALID then [] else [d.rune]) + Lossy(p[d.size..] + rest)
  {
    hide FullRune, DecodeRune;
    DecodeStable(p, rest);
    var d := DecodeRune(p);
    assert (p + rest)[d.size..] == p[d.size..] + rest;
  }

  lemma LoneCSI(rest: seq<Byte>)
    ensures Lossy([CSI] + rest) == Lossy(rest)
  {
    LossyStep([CSI], rest);
    assert [CSI][1..] + rest == rest;
  }

  lemma AppendPending(t: Typed, r: Rune)
    ensures AppendRune(t, r).pending == t.pending
  {
  }

  /** Keeping the newest runes at each step is keeping the newest runes of all. */
  lemma {:induction false} NewestAgain(limit: int, a: Line, b: Line)
    requires limit >= 0
    ensures Newest(limit, Newest(limit, a) + b) == Newest(limit, a + b)
    decreases |a|
  {
    if ByteLen(a) > limit {
      ByteLenAppend(a, b);
      assert (a + b)[1..] == a[1..] + b;
      NewestAgain(limit, a[1..], b);
    }
  }

  /** While only printable bytes arrive, the buffer is the newest of all the
      runes assembled. */
  lemma {:induction false} BufferIsNewest(t: Typed, data: seq<Byte>)
    requires Neat(t) && Printable(data)
    ensures TextRun(t, data).0.buffer == Newest(t.limit, t.buffer + Accounts(t, data).runes)
    ensures TextRun(t, data).1 == [] && TextRun(t, data).0.limit == t.limit
    ensures data != [] ==> !TextRun(t, data).0.sawCR
    decreases |data|
  {
    hide TextStep, Completed, Newest;
    if data == [] {
      NewestOfFitting(t.limit, t.buffer);
      assert t.buffer + [] == t.buffer;
    } else {
      var b, t' := data[0], TextStep(t, data[0]).0;
      var c, rs := Completed(t, b), Accounts(t', data[1..]).runes;
      TextStepNeat(t, b);
      PrintableStep(t, b);
      BufferIsNewest(t', data[1..]);
      NewestAgain(t.limit, t.buffer + c, rs);
      assert t.buffer + c + rs == t.buffer + (c + rs);
    }
  }

  lemma NewestOfFitting(limit: int, rs: Line)
    requires 0 <= limit && ByteLen(rs) <= limit
    ensures Newest(limit, rs) == rs
  {
  }

  lemma PrintableStep(t: Typed, b: Byte)
    requires Neat(t) && b >= 32 && b != DEL
    ensures var r := TextStep(t, b);
      r.1 == [] && r.0.limit == t.limit && !r.0.sawCR && r.0.buffer == Newest(t.limit, t.buffer + Completed(t, b))
  {
    hide Newest, AppendRune, Backspace;
    var p := t.pending + [b];
    if ForAssembly(t, b) && FullRune(p) && DecodeRune(p) != INVALID {
      AppendIsNewest(t.(sawCR := false), DecodeRune(p).rune);
    } else {
      NewestOfFitting(t.limit, t.buffer);
      assert t.buffer + [] == t.buffer;
    }
  }

  // ----- when a line is its text -----

  /** The next unit of a text, a rune or a single invalid byte, if it is all there. */
  predicate HasUnit(data: seq<Byte>, at: nat)
    requires at <= |data|
  {
    FullRune(data[at..])
  }

  function NextUnit(data: seq<Byte>, at: nat): (d: Decoded)
    requires at <= |data| && HasUnit(data, at)
    ensures 1 <= d.size && at + d.size <= |data|
  {
    DecodeRune(data[at..])
  }

  /** The least n with data[at..n] a whole encoding or beginning with an invalid byte. */
  function Ready(data: seq<Byte>, at: nat, n: nat): (r: nat)
    requires at <= n <= |data| && HasUnit(data, at)
    ensures at < r <= |data| && FullRune(data[at..r])
    decreases |data| - n
  {
    assert data[at..|data|] == data[at..];
    if FullRune(data[at..n]) then n else Ready(data, at, n + 1)
  }

  lemma {:induction false} ReadyLeast(data: seq<Byte>, at: nat, n: nat, k: nat)
    requires at <= n <= k <= |data| && HasUnit(data, at) && FullRune(data[at..k])
    ensures Ready(data, at, n) <= k
    decreases k - n
  {
    hide FullRune, HasUnit;
    if n < k { ReadyLeast(data, at, n + 1, k); }
  }

  /** How many bytes of the text must have come for a unit to be recognised, and
      whether it is a rune. */
  datatype Unit = Unit(ready: nat, valid: bool)

  /** The units of the text from a position on, up to an unfinished end. */
  function Units(data: seq<Byte>, at: nat): seq<Unit>
    requires at <= |data|
    decreases |data| - at
  {
    if !HasUnit(data, at) then [] else
      var d := NextUnit(data, at);
      [Unit(Ready(data, at, at), d != INVALID)] + Units(data, at + d.size)
  }

  /** Between an invalid byte being recognised and the end of the text come as
      many bytes as there are units from it to any later rune. */
  ghost predicate Timely(data: seq<Byte>) {
    var u := Units(data, 0);
    forall i, j :: 0 <= j < i < |u| && u[i].valid && !u[j].valid ==> u[j].ready + (i - j) <= |data|
  }

  /** One unit leaves per byte, the next not before byte k + 1: whether all
      runes from `at` on have left by the end. */
  predicate AllLeave(data: seq<Byte>, at: nat, k: nat)
    requires at <= |data|
    decreases |data| - at
  {
    if !HasUnit(data, at) then true else
      var d, r := NextUnit(data, at), Ready(data, at, at);
      var n := if k + 1 > r then k + 1 else r;
      (d != INVALID ==> n <= |data|) && AllLeave(data, at + d.size, n)
  }

  lemma LossyUnit(data: seq<Byte>, at: nat)
    requires at <= |data|
    ensures Lossy(data[at..]) ==
      if !HasUnit(data, at) then [] else
        var d := NextUnit(data, at);
        (if d == INVALID then [] else [d.rune]) + Lossy(data[at + d.size..])
  {
    hide FullRune, DecodeRune;
    if HasUnit(data, at) {
      var n := NextUnit(data, at).size;
      assert data[at..][n..] == data[at + n..];
    }
  }

  lemma {:induction false} NoneLeaves(data: seq<Byte>, at: nat, k: nat)
    requires at <= |data| <= k
    ensures AllLeave(data, at, k) <==> Lossy(data[at..]) == []
    decreases |data| - at
  {
    hide HasUnit, NextUnit, FullRune, Lossy;
    LossyUnit(data, at);
    if HasUnit(data, at) {
      assert Ready(data, at, at) <= k + 1;
      NoneLeaves(data, at + NextUnit(data, at).size, k + 1);
    }
  }

  /** What is pending are the bytes from the next unit on; runes are left over at
      the end exactly if that schedule leaves some. */
  lemma {:induction false} LeftOver(t: Typed, data: seq<Byte>, at: nat, k: nat)
    requires Neat(t) && Printable(data) && at <= k <= |data| && t.pending == data[at..k]
    ensures Lossy(TextRun(t, data[k..]).0.pending) == [] <==> AllLeave(data, at, k)
    decreases |data| - k
  {
    hide TextStep, Neat, Lossy, AllLeave;
    if k == |data| {
      NoneLeaves(data, at, k);
      assert data[at..k] == data[at..] && data[k..] == [];
    } else {
      assert data[k..][0] == data[k] && data[k..][1..] == data[k + 1..];
      TextStepNeat(t, data[k]);
      var at' := PendingMoves(t, data, at, k);
      LeftOver(TextStep(t, data[k]).0, data, at', k + 1);
    }
  }

  lemma PendingMoves(t: Typed, data: seq<Byte>, at: nat, k: nat) returns (at': nat)
    requires Printable(data) && at <= k < |data| && t.pending == data[at..k]
    ensures at' <= k + 1 && TextStep(t, data[k]).0.pending == data[at'..k + 1]
    ensures AllLeave(data, at, k) == AllLeave(data, at', k + 1)
  {
    hide TextStep, FullRune, DecodeRune, AllLeave;
    var p := data[at..k + 1];
    assert t.pending + [data[k]] == p;
    PendingStep(t, data[k]);
    if FullRune(p) {
      UnitLeaves(data, at, k);
      at' := at + DecodeRune(p).size;
    } else {
      StillWaiting(data, at, k);
      at' := at;
    }
  }

  lemma UnitLeaves(data: seq<Byte>, at: nat, k: nat)
    requires at <= k < |data| && FullRune(data[at..k + 1])
    ensures var p, size := data[at..k + 1], DecodeRune(data[at..k + 1]).size;
      && p[size..] == data[at + size..k + 1]
      && AllLeave(data, at, k) == AllLeave(data, at + size, k + 1)
  {
    hide FullRune, DecodeRune;
    var p := data[at..k + 1];
    assert p + data[k + 1..] == data[at..];
    DecodeStable(p, data[k + 1..]);
    ReadyLeast(data, at, at, k + 1);
  }

  lemma StillFull(data: seq<Byte>, at: nat, r: nat, k: nat)
    requires at <= r <= k <= |data|
    ensures FullRune(data[at..r]) ==> FullRune(data[at..k])
  {
    hide FullRune, DecodeRune;
    if FullRune(data[at..r]) {
      assert data[at..r] + data[r..k] == data[at..k];
      DecodeStable(data[at..r], data[r..k]);
    }
  }

  lemma StillWaiting(data: seq<Byte>, at: nat, k: nat)
    requires at <= k < |data| && !FullRune(data[at..k + 1])
    ensures AllLeave(data, at, k) == AllLeave(data, at, k + 1)
  {
    hide FullRune, DecodeRune;
    if HasUnit(data, at) {
      var r := Ready(data, at, at);
      StillFull(data, at, if r <= k + 1 then r else at, k + 1);
    }
  }

  lemma PendingStep(t: Typed, b: Byte)
    requires b >= 32 && b != DEL
    ensures var p := t.pending + [b];
      TextStep(t, b).0.pending == if FullRune(p) then p[DecodeRune(p).size..] else p
  {
    hide AppendRune;
    var p := t.pending + [b];
    if b == CSI && t.pending == [] {
      assert p == [CSI];
    } else if FullRune(p) && DecodeRune(p) != INVALID {
      AppendPending(t.(sawCR := false), DecodeRune(p).rune);
    }
  }

  /** In closed form: unit i leaves with the last of byte k + 1 + i and, for each
      unit up to it, the byte that comes i - j after unit j is recognised. */
  predicate Leaves(u: seq<Unit>, i: nat, k: nat, len: nat)
    requires i < |u|
  {
    k + 1 + i <= len && forall j :: 0 <= j <= i ==> u[j].ready + (i - j) <= len
  }

  predicate RunesLeave(u: seq<Unit>, k: nat, len: nat) {
    forall i {:trigger Leaves(u, i, k, len)} :: 0 <= i < |u| && u[i].valid ==> Leaves(u, i, k, len)
  }

  lemma {:induction false} AllLeaveUnits(data: seq<Byte>, at: nat, k: nat)
    requires at <= |data|
    ensures AllLeave(data, at, k) <==> RunesLeave(Units(data, at), k, |data|)
    decreases |data| - at
  {
    hide HasUnit, NextUnit, FullRune, RunesLeave;
    if HasUnit(data, at) {
      var d, r := NextUnit(data, at), Ready(data, at, at);
      AllLeaveUnits(data, at + d.size, if k + 1 > r then k + 1 else r);
      RunesLeaveNext(Unit(r, d != INVALID), Units(data, at + d.size), k, |data|);
    } else {
      NoUnits(k, |data|);
    }
  }

  lemma NoUnits(k: nat, len: nat)
    ensures RunesLeave([], k, len)
  {
  }

  lemma RunesLeaveNext(x: Unit, v: seq<Unit>, k: nat, len: nat)
    ensures var n := if k + 1 > x.ready then k + 1 else x.ready;
      RunesLeave([x] + v, k, len) <==> (x.valid ==> n <= len) && RunesLeave(v, n, len)
  {
    hide Leaves;
    var u, n := [x] + v, if k + 1 > x.ready then k + 1 else x.ready;
    LeavesFirst(u, k, len);
    forall i | 0 <= i < |v| ensures Leaves(u, i + 1, k, len) <==> Leaves(v, i, n, len) {
      LeavesNext(x, v, i, k, len);
    }
    if RunesLeave(u, k, len) {
      forall i | 0 <= i < |v| && v[i].valid ensures Leaves(v, i, n, len) { assert u[i + 1].valid; }
    } else {
      var i :| 0 <= i < |u| && u[i].valid && !Leaves(u, i, k, len);
      if i > 0 { assert v[i - 1].valid && !Leaves(v, i - 1, n, len); }
    }
  }

  lemma LeavesFirst(u: seq<Unit>, k: nat, len: nat)
    requires u != []
    ensures Leaves(u, 0, k, len) <==> k + 1 <= len && u[0].ready <= len
  {
    if u[0].ready <= len { assert forall j :: 0 <= j <= 0 ==> u[j].ready + (0 - j) <= len; }
  }

  lemma LeavesNext(x: Unit, v: seq<Unit>, i: nat, k: nat, len: nat)
    requires i < |v|
    ensures Leaves([x] + v, i + 1, k, len) <==> Leaves(v, i, if k + 1 > x.ready then k + 1 else x.ready, len)
  {
    var u := [x] + v;
    assert u[0] == x && forall j :: 0 <= j < |v| ==> u[j + 1] == v[j];
    assert forall j :: 0 < j < |u| ==> u[j] == v[j - 1];
  }

  /** A rune is recognised with its last byte, so it holds nothing up. */
  lemma {:induction false} RunesInTime(data: seq<Byte>, at: nat)
    requires at <= |data|
    ensures var u := Units(data, at);
      && at + |u| <= |data|
      && forall j :: 0 <= j < |u| && u[j].valid ==> u[j].ready + (|u| - 1 - j) <= |data|
    decreases |data| - at
  {
    hide HasUnit, NextUnit, FullRune;
    if HasUnit(data, at) {
      var d := NextUnit(data, at);
      RunesInTime(data, at + d.size);
      if d != INVALID { ReadyWhole(data, at); }
      var u, v := Units(data, at), Units(data, at + d.size);
      assert forall i :: 0 < i < |u| ==> u[i] == v[i - 1];
    }
  }

  lemma ReadyWhole(data: seq<Byte>, at: nat)
    requires at <= |data| && HasUnit(data, at) && NextUnit(data, at) != INVALID
    ensures Ready(data, at, at) == at + NextUnit(data, at).size
  {
    hide DecodeRune;
    var p, r := data[at..], Ready(data, at, at);
    assert data[at..r] + data[r..] == p;
    DecodeStable(data[at..r], data[r..]);
    var e := at + NextUnit(data, at).size;
    assert data[at..e] == p[..e - at];
    assert FullRune(data[at..e]);
    ReadyLeast(data, at, at, e);
  }

  lemma TimelyLeaves(data: seq<Byte>)
    ensures AllLeave(data, 0, 0) <==> Timely(data)
  {
    hide AllLeave, Units, Ready;
    var u := Units(data, 0);
    AllLeaveUnits(data, 0, 0);
    RunesInTime(data, 0);
    if AllLeave(data, 0, 0) {
      forall i, j | 0 <= j < i < |u| && u[i].valid && !u[j].valid ensures u[j].ready + (i - j) <= |data| {
        assert Leaves(u, i, 0, |data|);
      }
    } else {
      var i :| 0 <= i < |u| && u[i].valid && !Leaves(u, i, 0, |data|);
      var j :| 0 <= j <= i && u[j].ready + (i - j) > |data|;
    }
  }

  predicate EndsLine(b: Byte, data: seq<Byte>, t: Typed) { b == CR || (b == LF && (data != [] || !t.sawCR)) }

  /** A line of printable bytes that fits the buffer is emitted as its text, the
      invalid bytes left out, exactly if the text is timely; if it is timely but
      too long, as the newest runes of its text. */
  lemma LineIsItsText(t: Typed, data: seq<Byte>, end: Byte)
    requires Neat(t) && t.buffer == [] && t.pending == [] && Printable(data) && EndsLine(end, data, t)
    ensures Timely(data) ==> TextRun(t, data + [end]).1 == [Newest(t.limit, Lossy(data))]
    ensures ByteLen(Lossy(data)) <= t.limit ==> (TextRun(t, data + [end]).1 == [Lossy(data)] <==> Timely(data))
  {
    hide TextRun, TextStep, Lossy, Newest, Neat, Completed, AllLeave, Timely;
    var u, rs := TextRun(t, data).0, Accounts(t, data).runes;
    assert data[0..0] == [] && data[0..] == data;
    LeftOver(t, data, 0, 0);
    TimelyLeaves(data);
    AssemblyLags(t, data);
    assert t.pending + data == data;
    LineEmitted(t, data, end);
    if Timely(data) {
      assert rs + [] == rs;
    } else if ByteLen(Lossy(data)) <= t.limit {
      ByteLenAppend(rs, Lossy(u.pending));
      NewestOfFitting(t.limit, rs);
      assert |Lossy(data)| > |rs|;
      assert [rs][0] != [Lossy(data)][0];
    }
    if ByteLen(Lossy(data)) <= t.limit { NewestOfFitting(t.limit, Lossy(data)); }
  }

  lemma LineEmitted(t: Typed, data: seq<Byte>, end: Byte)
    requires Neat(t) && t.buffer == [] && Printable(data) && EndsLine(end, data, t)
    ensures TextRun(t, data + [end]).1 == [Newest(t.limit, Accounts(t, data).runes)]
  {
    hide TextRun, TextStep, Newest, Neat, Completed;
    var u := TextRun(t, data).0;
    BufferIsNewest(t, data);
    assert t.buffer + Accounts(t, data).runes == Accounts(t, data).runes;
    TextRunAppend(t, data, [end]);
    TextRunOne(u, end);
    if data == [] { TextRunNone(t); }
    LineEnd(u, end);
    EmittingTwice([], [], TextRun(u, [end]));
  }

  lemma LineEnd(t: Typed, end: Byte)
    requires end == CR || (end == LF && !t.sawCR)
    ensures TextStep(t, end).1 == [t.buffer]
  {
  }

  /** A whole letter lost behind one invalid byte: E4 'A' CR yields an empty line. */
  lemma LetterLost()
    ensures TextRun(Fresh(0).text, [0xE4, 65, CR]).1 == [[]]
    ensures Lossy([0xE4, 65]) == [65] && !Timely([0xE4, 65])
  {
    hide Timely, TextRun, Lossy;
    var t := Fresh(0).text;
    LetterSteps(t);
    LetterText();
    assert ByteLen([65]) == 1 by { ByteLenOne(65); }
    assert [0xE4, 65] + [CR] == [0xE4, 65, CR];
    LineIsItsText(t, [0xE4, 65], CR);
    assert [[]][0] != [[65]][0];
  }

  lemma LetterText()
    ensures Lossy([0xE4, 65]) == [65]
  {
    assert [65][1..] == [] && [0xE4, 65][1..] == [65];
    assert Lossy([65]) == [65] by { assert Lossy([]) == []; }
  }

  lemma LetterSteps(t: Typed)
    requires t == Fresh(0).text
    ensures TextRun(t, [0xE4, 65, CR]).1 == [[]]
  {
    hide TextStep, TextRun;
    var t1, t2 := t.(pending := [0xE4]), t.(pending := [65], invalid := 1);
    LetterStates(t);
    TextRunOne(t, 0xE4);
    TextRunOne(t1, 65);
    TextRunOne(t2, CR);
    LineEnd(t2, CR);
    TextRunAppend(t, [0xE4], [65]);
    TextRunAppend(t, [0xE4] + [65], [CR]);
    assert [0xE4] + [65] + [CR] == [0xE4, 65, CR];
  }

  lemma LetterStates(t: Typed)
    requires t == Fresh(0).text
    ensures TextStep(t, 0xE4) == (t.(pending := [0xE4]), [])
    ensures TextStep(t.(pending := [0xE4]), 65) == (t.(pending := [65], invalid := 1), [])
  {
    assert [] + [0xE4] == [0xE4] && [0xE4] + [65] == [0xE4, 65] && [0xE4, 65][1..] == [65];
  }
}
