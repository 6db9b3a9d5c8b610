/** The terminal line discipline of internal/protocol/line.go. */
module LineDiscipline {
  import opened Bytes
  import opened Utf8

  const IAC: Byte := 0xFF
  const CR: Byte := 13
  const LF: Byte := 10
  const BS: Byte := 8
  const DEL: Byte := 0x7F
  const CSI: Byte := 155
  const DEFAULT_INPUT_LIMIT: nat := 1024

  predicate IsOption(b: Byte) { 0xFB <= b <= 0xFE }

  type Line = seq<Rune>

  /** What the discipline knows about the line being typed. */
  datatype Typed = Typed(limit: int, buffer: Line, bufferBytes: int, pending: seq<Byte>, sawCR: bool, invalid: nat)

  /** ... and about a Telnet command in progress. */
  datatype State = State(text: Typed, pendingIAC: bool, skipTelnet: nat)

  function ByteLen(rs: Line): (n: nat)
    ensures n >= |rs|
  {
    if rs == [] then 0 else RuneLen(rs[0]) + ByteLen(rs[1..])
  }

  // ----- one byte of text -----

  function Backspace(t: Typed): Typed {
    if t.buffer == [] then t else
      var n := t.bufferBytes - RuneLen(t.buffer[|t.buffer| - 1]);
      t.(buffer := t.buffer[..|t.buffer| - 1], bufferBytes := if n < 0 then 0 else n)
  }

  /** The loop of `appendRune`: drop from the front until n more bytes fit. */
  function MakeRoom(t: Typed, n: nat): (t': Typed)
    ensures t' == t.(buffer := t'.buffer, bufferBytes := t'.bufferBytes)
    decreases |t.buffer|
  {
    if t.buffer != [] && t.bufferBytes + n > t.limit then
      MakeRoom(t.(buffer := t.buffer[1..], bufferBytes := t.bufferBytes - RuneLen(t.buffer[0])), n)
    else t
  }

  function AppendRune(t: Typed, r: Rune): Typed {
    var u := MakeRoom(t, RuneLen(r));
    if RuneLen(r) > t.limit then u
    else u.(buffer := u.buffer + [r], bufferBytes := u.bufferBytes + RuneLen(r))
  }

  function AcceptByte(t: Typed, b: Byte): Typed {
    var p := t.pending + [b];
    if !FullRune(p) then t.(pending := p) else
      var d := DecodeRune(p);
      if d == INVALID then t.(pending := p[1..], invalid := t.invalid + 1)
      else AppendRune(t, d.rune).(pending := p[d.size..])
  }

  /** A byte that is not part of a Telnet command, and the line it completes. */
  function TextStep(t: Typed, b: Byte): (Typed, seq<Line>) {
    if b == CR || b == LF then
      if b == LF && t.sawCR then (t.(sawCR := false), [])
      else (t.(buffer := [], bufferBytes := 0, pending := [], sawCR := b == CR), [t.buffer])
    else if b == BS || b == DEL then (Backspace(t.(sawCR := false, pending := [])), [])
    else if b < 32 || (b == CSI && t.pending == []) then (t.(sawCR := false), [])
    else (AcceptByte(t.(sawCR := false), b), [])
  }

  // ----- one chunk -----

  function Emitting<S>(lines: seq<Line>, r: (S, seq<Line>)): (S, seq<Line>) {
    (r.0, lines + r.1)
  }

  lemma EmittingTwice<S>(a: seq<Line>, b: seq<Line>, r: (S, seq<Line>))
    ensures Emitting(a, Emitting(b, r)) == Emitting(a + b, r)
    ensures Emitting([], r) == r
  {
    assert a + (b + r.1) == a + b + r.1;
    assert [] + r.1 == r.1;
  }

  /** The loop of `Feed`, which looks ahead within the chunk. */
  function Feed(s: State, data: seq<Byte>): (State, seq<Line>)
    decreases |data|
  {
    if data == [] then (s, []) else
      var b := data[0];
      if s.skipTelnet > 0 then Feed(s.(skipTelnet := s.skipTelnet - 1), data[1..])
      else if s.pendingIAC then
        var s' := s.(pendingIAC := false);
        if !IsOption(b) then Feed(s', data[1..])
        else if |data| > 1 then Feed(s', data[2..])
        else (s'.(skipTelnet := 1), [])
      else if b == IAC then
        if |data| == 1 then (s.(pendingIAC := true), [])
        else if !IsOption(data[1]) then Feed(s, data[1..])
        else if |data| > 2 then Feed(s, data[3..])
        else (s.(skipTelnet := 1), [])
      else
        var (t, lines) := TextStep(s.text, b);
        Emitting(lines, Feed(s.(text := t), data[1..]))
  }

  // ----- the program -----

  class Discipline {
    var limit: int
    var buffer: Line
    var bufferBytes: int
    var pendingUTF8: seq<Byte>
    var pendingIAC: bool
    var skipTelnet: nat
    var sawCR: bool
    var invalid: nat

    ghost function Text(): Typed
      reads this
    {
      Typed(limit, buffer, bufferBytes, pendingUTF8, sawCR, invalid)
    }

    ghost function Abs(): State
      reads this
    {
      State(Text(), pendingIAC, skipTelnet)
    }

    constructor (inputLimit: int)
      ensures Abs() == Fresh(inputLimit)
    {
      limit := if inputLimit <= 0 then DEFAULT_INPUT_LIMIT else inputLimit;
      buffer, bufferBytes, pendingUTF8 := [], 0, [];
      pendingIAC, skipTelnet, sawCR, invalid := false, 0, false, 0;
    }

    method ResetLine()
      modifies `buffer, `bufferBytes, `pendingUTF8
      ensures Text() == old(Text()).(buffer := [], bufferBytes := 0, pending := [])
    {
      buffer, bufferBytes, pendingUTF8 := [], 0, [];
    }

    method DeleteLast()
      modifies `buffer, `bufferBytes
      ensures Text() == Backspace(old(Text()))
    {
      if |buffer| == 0 {
        return;
      }
      var last := buffer[|buffer| - 1];
      buffer := buffer[..|buffer| - 1];
      bufferBytes := bufferBytes - RuneLen(last);
      if bufferBytes < 0 {
        bufferBytes := 0;
      }
    }

    method Append(r: Rune)
      modifies `buffer, `bufferBytes
      ensures Text() == AppendRune(old(Text()), r)
    {
      var n := RuneLen(r);
      while |buffer| > 0 && bufferBytes + n > limit
        invariant MakeRoom(Text(), n) == MakeRoom(old(Text()), n)
        decreases |buffer|
      {
        bufferBytes := bufferBytes - RuneLen(buffer[0]);
        buffer := buffer[1..];
      }
      if n > limit {
        return;
      }
      buffer := buffer + [r];
      bufferBytes := bufferBytes + n;
    }

    method AcceptUTF8Byte(b: Byte)
      modifies `buffer, `bufferBytes, `pendingUTF8, `invalid
      ensures Text() == AcceptByte(old(Text()), b)
    {
      pendingUTF8 := pendingUTF8 + [b];
      if !FullRune(pendingUTF8) {
        return;
      }
      var d := DecodeRune(pendingUTF8);
      if d.rune == RUNE_ERROR && d.size == 1 {
        invalid := invalid + 1;
        pendingUTF8 := pendingUTF8[1..];
        return;
      }
      AppendKeepsPending(Text(), old(Text()).pending, d.rune);
      Append(d.rune);
      pendingUTF8 := pendingUTF8[d.size..];
    }

    method FeedChunk(data: seq<Byte>) returns (lines: seq<Line>)
      modifies this
      ensures (Abs(), lines) == Feed(old(Abs()), data)
    {
      hide TextStep, Backspace, AppendRune, AcceptByte;
      lines := [];
      var i := 0;
      assert data[0..] == data && data[|data|..] == [];
      EmittingTwice([], [], Feed(Abs(), data));
      while i < |data|
        invariant i <= |data|
        invariant Emitting(lines, Feed(Abs(), data[i..])) == Feed(old(Abs()), data)
      {
        FeedUnfolds(Abs(), data, i);
        var b := data[i];
        if skipTelnet > 0 {
          skipTelnet := skipTelnet - 1;
        } else if pendingIAC {
          pendingIAC := false;
          if IsOption(b) {
            if i + 1 < |data| {
              i := i + 1;
            } else {
              skipTelnet := 1;
            }
          }
        } else if b == IAC {
          if i + 1 < |data| && IsOption(data[i + 1]) {
            if i + 2 < |data| {
              i := i + 2;
            } else {
              i := i + 1;
              skipTelnet := 1;
            }
          } else if i + 1 == |data| {
            pendingIAC := true;
          }
        } else {
          var line := TextByte(b);
          EmittingTwice(lines, line, Feed(Abs(), data[i + 1..]));
          lines := lines + line;
        }
        i := i + 1;
      }
      assert lines + [] == lines;
    }

    /** The switch at the end of the loop body. */
    method TextByte(b: Byte) returns (lines: seq<Line>)
      modifies `buffer, `bufferBytes, `pendingUTF8, `sawCR, `invalid
      ensures (Text(), lines) == TextStep(old(Text()), b)
    {
      hide Backspace, AppendRune, AcceptByte;
      lines := [];
      if b == CR || b == LF {
        if b == LF && sawCR {
          sawCR := false;
          return;
        }
        lines := [buffer];
        ResetLine();
        sawCR := b == CR;
      } else if b == BS || b == DEL {
        sawCR := false;
        pendingUTF8 := [];
        DeleteLast();
      } else {
        sawCR := false;
        if b < 32 || (b == CSI && |pendingUTF8| == 0) {
          return;
        }
        AcceptUTF8Byte(b);
      }
    }
  }

  function Fresh(inputLimit: int): State {
    State(Typed(if inputLimit <= 0 then DEFAULT_INPUT_LIMIT else inputLimit, [], 0, [], false, 0), false, 0)
  }

  lemma {:induction false} RoomKeepsPending(t: Typed, p: seq<Byte>, n: nat)
    ensures MakeRoom(t.(pending := p), n) == MakeRoom(t, n).(pending := p)
    decreases |t.buffer|
  {
    if t.buffer != [] && t.bufferBytes + n > t.limit {
      var u := t.(buffer := t.buffer[1..], bufferBytes := t.bufferBytes - RuneLen(t.buffer[0]));
      RoomKeepsPending(u, p, n);
    }
  }

  lemma AppendKeepsPending(t: Typed, p: seq<Byte>, r: Rune)
    ensures AppendRune(t.(pending := p), r) == AppendRune(t, r).(pending := p)
  {
    RoomKeepsPending(t, p, RuneLen(r));
  }

  lemma FeedUnfolds(s: State, data: seq<Byte>, i: nat)
    requires i < |data|
    ensures data[i..][0] == data[i] && data[i..][1..] == data[i + 1..]
    ensures i + 2 <= |data| ==> data[i..][1] == data[i + 1] && data[i..][2..] == data[i + 2..]
    ensures i + 3 <= |data| ==> data[i..][3..] == data[i + 3..]
  {
  }
}
