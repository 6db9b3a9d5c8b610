/** The compressor and the expander of util/ed/compress.c over sequences of
    codes, and the proof that the second undoes the first. */
module LzwCodec {
  import opened Bytes
  import opened LzwTable

  const STACKSIZE: nat := TABSIZE

  /** The string an entry stands for. */
  function Spell(t: Table, i: nat): (w: seq<Byte>)
    requires Dictionary(t) && Used(t, i)
    ensures w != []
    decreases t.rank[i]
  {
    hide Threaded, Hashed, Distinct;
    PredecessorKind(t, i);
    if t.slots[i].predecessor == NO_PRED then [t.slots[i].follower]
    else Spell(t, t.slots[i].predecessor) + [t.slots[i].follower]
  }

  /** Exactly the first 256 entries have no predecessor; any other entry's
      predecessor was entered before it. */
  lemma PredecessorKind(t: Table, i: nat)
    requires Dictionary(t) && Used(t, i)
    ensures t.slots[i].predecessor == NO_PRED <==> t.rank[i] < 256
    ensures t.slots[i].predecessor != NO_PRED ==>
      Used(t, t.slots[i].predecessor) && t.rank[t.slots[i].predecessor] < t.rank[i]
  {
    hide Threaded, Hashed, Distinct;
    assert PredecessorOk(t, i);
    if t.rank[i] < 256 {
      assert Holds(t, t.order[t.rank[i]], NO_PRED, t.rank[i]);
    }
  }

  /** Predecessor walks only lead to earlier entries, so an entry's string is
      at most 3841 bytes long. */
  lemma {:induction false} SpellLength(t: Table, i: nat)
    requires Dictionary(t) && Used(t, i)
    ensures |Spell(t, i)| <= 1 + (if t.rank[i] < 256 then 0 else t.rank[i] - 255)
    ensures |Spell(t, i)| - 1 <= TABSIZE - 256
    decreases t.rank[i]
  {
    hide Threaded, Hashed, Distinct;
    PredecessorKind(t, i);
    assert t.rank[i] < |t.order|;
    if t.slots[i].predecessor != NO_PRED { SpellLength(t, t.slots[i].predecessor); }
  }

  /** An insertion does not change what the older codes stand for. */
  lemma {:induction false} SpellKept(t: Table, t': Table, s: nat, pred: nat, foll: Byte, i: nat)
    requires Dictionary(t) && Dictionary(t') && Grown(t, t', s, pred, foll) && Used(t, i)
    ensures Used(t', i) && Spell(t', i) == Spell(t, i)
    decreases t.rank[i]
  {
    hide Threaded, Hashed, Distinct;
    PredecessorKind(t, i);
    if t.slots[i].predecessor != NO_PRED {
      SpellKept(t, t', s, pred, foll, t.slots[i].predecessor);
    }
  }

  /** `unhash(NO_PRED, c)`: the code of a single byte. */
  function Root(t: Table, c: Byte): (r: nat)
    requires Dictionary(t)
    ensures Used(t, r) && Spell(t, r) == [c]
  {
    hide H, Find, Threaded, Hashed, Distinct;
    FindExact(t, NO_PRED, c);
    assert Holds(t, t.order[c], NO_PRED, c);
    Find(t, NO_PRED, c)
  }

  /** `if (code_count) { upd_tab(pred, foll); code_count--; }`: code_count is
      the number of slots still free. */
  function Learn(t: Table, pred: nat, foll: Byte): Table
    requires Chained(t)
  {
    if |t.order| < TABSIZE then Insert(t, pred, foll) else t
  }

  // ----- compress -----

  /** The codes still to be emitted when `code` is matched and `rest` is unread. */
  function EncodeFrom(t: Table, code: nat, rest: seq<Byte>): seq<nat>
    requires Dictionary(t) && Used(t, code)
    decreases |rest|
  {
    hide H, Find, Insert, Threaded, Hashed, Rooted, Distinct;
    if rest == [] then [code] else
      var c := rest[0];
      FindExact(t, code, c);
      if Find(t, code, c) != NOT_FND then
        EncodeFrom(t, Find(t, code, c), rest[1..])
      else
        LearnDictionary(t, code, c);
        var t' := Learn(t, code, c);
        [code] + EncodeFrom(t', Root(t', c), rest[1..])
  }

  lemma EncodeEnd(t: Table, code: nat)
    requires Dictionary(t) && Used(t, code)
    ensures EncodeFrom(t, code, []) == [code]
  {
    hide Dictionary;
  }

  lemma LearnDictionary(t: Table, pred: nat, foll: Byte)
    requires Dictionary(t) && Used(t, pred) && Absent(t, pred, foll)
    ensures Dictionary(Learn(t, pred, foll))
  {
    hide H, Insert, Threaded, Hashed, Rooted, Distinct;
    if |t.order| < TABSIZE { InsertDictionary(t, pred, foll); }
  }

  /** With no input `readc` yields UEOF, which `unhash` takes as the byte 255. */
  function Encode(x: seq<Byte>): seq<nat> {
    hide Dictionary, Find, Start;
    var t := Start();
    if x == [] then [Root(t, 255)] else EncodeFrom(t, Root(t, x[0]), x[1..])
  }

  lemma {:induction false} EncodeFromBounds(t: Table, code: nat, rest: seq<Byte>)
    requires Dictionary(t) && Used(t, code)
    ensures 1 <= |EncodeFrom(t, code, rest)| <= 1 + |rest|
    ensures forall k :: 0 <= k < |EncodeFrom(t, code, rest)| ==> EncodeFrom(t, code, rest)[k] < TABSIZE
    decreases |rest|
  {
    hide H, Find, Insert, Threaded, Hashed, Rooted, Distinct;
    if rest != [] {
      var c := rest[0];
      FindExact(t, code, c);
      if Find(t, code, c) != NOT_FND {
        EncodeFromBounds(t, Find(t, code, c), rest[1..]);
      } else {
        LearnDictionary(t, code, c);
        var t' := Learn(t, code, c);
        EncodeFromBounds(t', Root(t', c), rest[1..]);
      }
    }
  }

  // ----- uncompress -----

  /** What the expander comes to: its output, an access outside the table
      because not even one code could be read, or `push`'s fatal exit. */
  datatype Outcome = Text(bytes: seq<Byte>) | NoCode | StackOverflow

  /** Every predecessor is a slot number or NO_PRED. */
  ghost predicate Bounded(slots: seq<Entry>) {
    |slots| == TABSIZE
    && forall i {:trigger slots[i].predecessor} :: 0 <= i < TABSIZE ==>
         slots[i].predecessor == NO_PRED || slots[i].predecessor < TABSIZE
  }

  /** The predecessor walk from `code` when sp bytes are stacked already, read
      back first byte first. */
  function Unwind(slots: seq<Entry>, code: nat, sp: nat): (r: Outcome)
    requires Bounded(slots) && code < TABSIZE && sp < STACKSIZE
    ensures r.Text? ==> r.bytes != []
    decreases STACKSIZE - sp
  {
    var e := slots[code];
    if e.predecessor == NO_PRED then Text([e.follower])
    else if sp + 1 >= STACKSIZE then StackOverflow
    else match Unwind(slots, e.predecessor, sp + 1)
      case Text(w) => Text(w + [e.follower])
      case other => other
  }

  /** A table any code stream can lead the expander to. */
  ghost predicate Sound(t: Table) {
    Chained(t) && Used(t, 0) && Bounded(t.slots)
  }

  lemma LearnSound(t: Table, pred: nat, foll: Byte)
    requires Sound(t) && pred < TABSIZE
    ensures Sound(Learn(t, pred, foll))
  {
    hide H, Threaded, Hashed;
    if |t.order| < TABSIZE {
      InsertChained(t, pred, foll);
      var s, t' := SlotFor(t, pred, foll), Insert(t, pred, foll);
      forall i | 0 <= i < TABSIZE ensures t'.slots[i].predecessor == NO_PRED || t'.slots[i].predecessor < TABSIZE {
        assert i == s || t'.slots[i].predecessor == t.slots[i].predecessor;
      }
    }
  }

  /** One turn of the main loop: the bytes written and the new `finchar`. An
      unused code is taken to be the entry about to be made. */
  function DecodeOne(t: Table, prev: nat, fin: Byte, code: nat): (r: Outcome)
    requires Bounded(t.slots) && prev < TABSIZE && code < TABSIZE
    ensures r.Text? ==> r.bytes != []
  {
    if Used(t, code) then Unwind(t.slots, code, 0)
    else match Unwind(t.slots, prev, 0)
      case Text(w) => Text(w + [fin])
      case other => other
  }

  function NewFin(t: Table, fin: Byte, code: nat, out: seq<Byte>): Byte
    requires out != []
  {
    if Used(t, code) then out[0] else fin
  }

  predicate Codes(codes: seq<nat>) {
    forall k :: 0 <= k < |codes| ==> codes[k] < TABSIZE
  }

  function DecodeFrom(t: Table, prev: nat, fin: Byte, codes: seq<nat>): Outcome
    requires Sound(t) && prev < TABSIZE && Codes(codes)
    decreases |codes|
  {
    hide H, Insert, Chained;
    if codes == [] then Text([]) else
      match DecodeOne(t, prev, fin, codes[0])
      case Text(w) =>
        var f := NewFin(t, fin, codes[0], w);
        LearnSound(t, prev, f);
        Prepend(w, DecodeFrom(Learn(t, prev, f), codes[0], f, codes[1..]))
      case other => other
  }

  function Prepend(w: seq<Byte>, r: Outcome): Outcome {
    if r.Text? then Text(w + r.bytes) else r
  }

  lemma DictionarySound(t: Table)
    requires Dictionary(t)
    ensures Sound(t)
  {
    hide H, Threaded, Hashed, Distinct;
    forall i | 0 <= i < TABSIZE ensures t.slots[i].predecessor == NO_PRED || t.slots[i].predecessor < TABSIZE {
      if Used(t, i) { PredecessorKind(t, i); } else { assert Blank(t.slots[i]); }
    }
  }

  function Decode(codes: seq<nat>): Outcome
    requires Codes(codes)
  {
    hide Dictionary, Sound, Start;
    var t := Start();
    DictionarySound(t);
    if codes == [] then NoCode else
      var c := FollowerAt(t, codes[0]);
      Prepend([c], DecodeFrom(t, codes[0], c, codes[1..]))
  }

  function FollowerAt(t: Table, code: nat): Byte
    requires Sound(t) && code < TABSIZE
  {
    t.slots[code].follower
  }

  // ----- the round trip -----

  /** On a dictionary the expander's walk spells the entry's string: it ends,
      and it never overflows the stack. */
  lemma {:induction false} UnwindSpells(t: Table, i: nat, sp: nat)
    requires Dictionary(t) && Used(t, i)
    requires Bounded(t.slots) && sp + |Spell(t, i)| <= STACKSIZE
    ensures Unwind(t.slots, i, sp) == Text(Spell(t, i))
    decreases t.rank[i]
  {
    hide Threaded, Hashed, Distinct;
    PredecessorKind(t, i);
    if t.slots[i].predecessor != NO_PRED {
      UnwindSpells(t, t.slots[i].predecessor, sp + 1);
    }
  }

  /** The expander's table t lags the compressor's t' by the one entry made
      when `prev` was emitted and a string starting with f was begun. */
  ghost predicate Lags(t: Table, t': Table, prev: nat, f: Byte) {
    && Dictionary(t) && Used(t, prev)
    && (|t.order| < TABSIZE ==> Absent(t, prev, f))
    && t' == Learn(t, prev, f)
  }

  /** Receiving an emitted code, the expander writes exactly its string, even
      when the code is the entry it does not have yet, and catches up. */
  lemma DecodeOneSpells(t: Table, t': Table, prev: nat, code: nat)
    requires Dictionary(t') && Used(t', code)
    requires Lags(t, t', prev, Spell(t', code)[0])
    ensures Bounded(t.slots) && Spell(t, prev) != []
    ensures DecodeOne(t, prev, Spell(t, prev)[0], code) == Text(Spell(t', code))
    ensures NewFin(t, Spell(t, prev)[0], code, Spell(t', code)) == Spell(t', code)[0]
  {
    hide H, Threaded, Hashed, Distinct, Rooted, Insert;
    DictionarySound(t);
    var f := Spell(t', code)[0];
    if Used(t, code) {
      LagSpells(t, t', prev, f, code);
      SpellLength(t, code);
      UnwindSpells(t, code, 0);
    } else {
      PendingSpells(t, t', prev, f, code);
      SpellLength(t, prev);
      UnwindSpells(t, prev, 0);
    }
  }

  lemma LagSpells(t: Table, t': Table, prev: nat, f: Byte, code: nat)
    requires Lags(t, t', prev, f) && Dictionary(t') && Used(t, code)
    ensures Used(t', code) && Spell(t', code) == Spell(t, code)
  {
    hide H, Threaded, Hashed, Distinct, Rooted, Insert;
    if |t.order| < TABSIZE {
      SpellKept(t, t', SlotFor(t, prev, f), prev, f, code);
    }
  }

  /** A code the expander does not know is the one pending entry, and stands
      for the previous string followed by that string's own first byte. */
  lemma PendingSpells(t: Table, t': Table, prev: nat, f: Byte, code: nat)
    requires Lags(t, t', prev, f) && Dictionary(t') && Used(t', code) && !Used(t, code)
    ensures |t.order| < TABSIZE && code == SlotFor(t, prev, f)
    ensures Spell(t', code) == Spell(t, prev) + [f]
  {
    hide H, Threaded, Hashed, Distinct, Rooted, Insert;
    assert |t.order| < TABSIZE;
    PredecessorKind(t', code);
    SpellKept(t, t', SlotFor(t, prev, f), prev, f, prev);
  }

  /** From any pair of tables one entry apart, expanding what the compressor
      still emits gives the string matched so far and the unread input. */
  lemma {:induction false} Follows(t: Table, t': Table, prev: nat, code: nat, rest: seq<Byte>)
    requires Dictionary(t') && Used(t', code)
    requires Lags(t, t', prev, Spell(t', code)[0])
    ensures Sound(t) && Codes(EncodeFrom(t', code, rest))
    ensures DecodeFrom(t, prev, Spell(t, prev)[0], EncodeFrom(t', code, rest)) == Text(Spell(t', code) + rest)
    decreases |rest|
  {
    hide H, Find, Threaded, Hashed, Distinct, Rooted, Insert, Spell, DecodeOne, NewFin;
    DictionarySound(t);
    EncodeFromBounds(t', code, rest);
    var w := Spell(t', code);
    if rest == [] {
      DecodeOneSpells(t, t', prev, code);
    } else {
      var c := rest[0];
      FindExact(t', code, c);
      if Find(t', code, c) != NOT_FND {
        Extends(t', code, c);
        Follows(t, t', prev, Find(t', code, c), rest[1..]);
        assert w + [c] + rest[1..] == w + rest;
      } else {
        DecodeOneSpells(t, t', prev, code);
        LearnDictionary(t', code, c);
        var t'' := Learn(t', code, c);
        Follows(t', t'', code, Root(t'', c), rest[1..]);
        assert w + ([c] + rest[1..]) == w + rest;
      }
    }
  }

  lemma Extends(t: Table, code: nat, c: Byte)
    requires Dictionary(t) && Used(t, code) && Find(t, code, c) != NOT_FND
    ensures Used(t, Find(t, code, c))
    ensures Spell(t, Find(t, code, c)) == Spell(t, code) + [c]
    ensures Spell(t, Find(t, code, c))[0] == Spell(t, code)[0]
  {
    hide H, Find, Threaded, Hashed, Distinct, Rooted;
    FindExact(t, code, c);
  }

  /** The starting table has no pairs, so the first code is that of the first byte. */
  lemma FirstCode(t: Table, c: Byte, rest: seq<Byte>)
    requires Dictionary(t) && |t.order| == 256 && rest != []
    ensures var code := Root(t, c); Absent(t, code, rest[0]) && Find(t, code, rest[0]) == NOT_FND
  {
    hide H, Find, Threaded, Hashed, Distinct, Rooted;
    var code := Root(t, c);
    forall i ensures !Holds(t, i, code, rest[0]) {
      if Used(t, i) {
        PredecessorKind(t, i);
        assert t.rank[i] < |t.order|;
      }
    }
    FindExact(t, code, rest[0]);
  }

  /** From the starting table, the codes after the first give the bytes after the first. */
  lemma SecondByteOn(t: Table, c: Byte, code: nat, rest: seq<Byte>, codes: seq<nat>)
    requires Dictionary(t) && |t.order| == 256 && code == Root(t, c) && Used(t, code)
    requires Sound(t) && codes != [] && Codes(codes) && codes == EncodeFrom(t, code, rest)
    ensures codes[0] == code && DecodeFrom(t, code, c, codes[1..]) == Text(rest)
  {
    hide H, Find, Threaded, Hashed, Rooted, Distinct, Insert;
    if rest == [] {
      assert codes[1..] == [];
    } else {
      FirstCode(t, c, rest);
      LearnDictionary(t, code, rest[0]);
      var t' := Learn(t, code, rest[0]);
      Follows(t, t', code, Root(t', rest[0]), rest[1..]);
      assert [rest[0]] + rest[1..] == rest;
    }
  }

  /** Expanding the codes of any non-empty input gives that input back; with no
      input the compressor emits the code of byte 255. */
  lemma CodesRoundTrip(x: seq<Byte>)
    ensures Codes(Encode(x)) && 1 <= |Encode(x)| <= (if x == [] then 1 else |x|)
    ensures Decode(Encode(x)) == Text(if x == [] then [255] else x)
  {
    hide H, Find, Threaded, Hashed, Rooted, Distinct, Insert, Start, EncodeFrom, DecodeFrom;
    var t := Start();
    var y := if x == [] then [255] else x;
    var code := Root(t, y[0]);
    assert Encode(x) == EncodeFrom(t, code, y[1..]) by { if x == [] { EncodeEnd(t, code); } }
    DictionarySound(t);
    EncodeFromBounds(t, code, y[1..]);
    assert FollowerAt(t, code) == y[0];
    SecondByteOn(t, y[0], code, y[1..], Encode(x));
    assert [y[0]] + y[1..] == y;
  }

  // ----- the tables in step -----

  /** The compressor's table after each code it emits and learns from. */
  function EncodeTables(t: Table, code: nat, rest: seq<Byte>): seq<Table>
    requires Dictionary(t) && Used(t, code)
    decreases |rest|
  {
    hide H, Find, Insert, Threaded, Hashed, Rooted, Distinct;
    if rest == [] then [] else
      var c := rest[0];
      FindExact(t, code, c);
      if Find(t, code, c) != NOT_FND then
        EncodeTables(t, Find(t, code, c), rest[1..])
      else
        LearnDictionary(t, code, c);
        var t' := Learn(t, code, c);
        [t'] + EncodeTables(t', Root(t', c), rest[1..])
  }

  /** The expander's table after each code it receives from then on. */
  function DecodeTables(t: Table, prev: nat, fin: Byte, codes: seq<nat>): seq<Table>
    requires Sound(t) && prev < TABSIZE && Codes(codes)
    decreases |codes|
  {
    hide H, Insert, Chained;
    if codes == [] then [] else
      match DecodeOne(t, prev, fin, codes[0])
      case Text(w) =>
        var f := NewFin(t, fin, codes[0], w);
        LearnSound(t, prev, f);
        var t' := Learn(t, prev, f);
        [t'] + DecodeTables(t', codes[0], f, codes[1..])
      case _ => []
  }

  lemma {:induction false} StepsBehind(t: Table, t': Table, prev: nat, code: nat, rest: seq<Byte>)
    requires Dictionary(t') && Used(t', code)
    requires Lags(t, t', prev, Spell(t', code)[0])
    ensures Sound(t) && Codes(EncodeFrom(t', code, rest))
    ensures DecodeTables(t, prev, Spell(t, prev)[0], EncodeFrom(t', code, rest)) == [t'] + EncodeTables(t', code, rest)
    decreases |rest|
  {
    hide H, Find, Threaded, Hashed, Distinct, Rooted, Insert, Spell, DecodeOne, NewFin;
    DictionarySound(t);
    EncodeFromBounds(t', code, rest);
    if rest == [] {
      DecodeOneSpells(t, t', prev, code);
    } else {
      var c := rest[0];
      FindExact(t', code, c);
      if Find(t', code, c) != NOT_FND {
        Extends(t', code, c);
        StepsBehind(t, t', prev, Find(t', code, c), rest[1..]);
      } else {
        DecodeOneSpells(t, t', prev, code);
        LearnDictionary(t', code, c);
        var t'' := Learn(t', code, c);
        StepsBehind(t', t'', code, Root(t'', c), rest[1..]);
      }
    }
  }

  /** Entry k: the compressor's whole table once k codes are out. */
  function CompressorTables(x: seq<Byte>): seq<Table>
    requires x != []
  {
    hide Dictionary, Find, Start;
    var t := Start();
    [t] + EncodeTables(t, Root(t, x[0]), x[1..])
  }

  /** Entry k: the expander's whole table once k + 1 codes are in. */
  function ExpanderTables(codes: seq<nat>): seq<Table>
    requires Codes(codes) && codes != []
  {
    hide Dictionary, Sound, Start;
    var t := Start();
    DictionarySound(t);
    [t] + DecodeTables(t, codes[0], FollowerAt(t, codes[0]), codes[1..])
  }

  /** The expander's table runs exactly one insertion behind the compressor's. */
  lemma Lockstep(x: seq<Byte>)
    requires x != []
    ensures Codes(Encode(x)) && Encode(x) != []
    ensures ExpanderTables(Encode(x)) == CompressorTables(x)
    ensures |CompressorTables(x)| == |Encode(x)|
    ensures forall k :: 0 <= k < |CompressorTables(x)| ==> Dictionary(CompressorTables(x)[k])
  {
    hide H, Find, Threaded, Hashed, Rooted, Distinct, Insert, Start;
    var t := Start();
    var code := Root(t, x[0]);
    DictionarySound(t);
    EncodeFromBounds(t, code, x[1..]);
    TablesPerCode(t, code, x[1..]);
    if |x| > 1 {
      FirstCode(t, x[0], x[1..]);
      LearnDictionary(t, code, x[1]);
      var t' := Learn(t, code, x[1]);
      assert x[1..][0] == x[1] && x[1..][1..] == x[2..];
      StepsBehind(t, t', code, Root(t', x[1]), x[2..]);
      assert Encode(x)[1..] == EncodeFrom(t', Root(t', x[1]), x[2..]);
    }
  }

  lemma {:induction false} TablesPerCode(t: Table, code: nat, rest: seq<Byte>)
    requires Dictionary(t) && Used(t, code)
    ensures |EncodeFrom(t, code, rest)| == 1 + |EncodeTables(t, code, rest)|
    ensures forall k :: 0 <= k < |EncodeTables(t, code, rest)| ==> Dictionary(EncodeTables(t, code, rest)[k])
    decreases |rest|
  {
    hide H, Find, Threaded, Hashed, Distinct, Rooted, Insert;
    if rest != [] {
      var c := rest[0];
      FindExact(t, code, c);
      if Find(t, code, c) != NOT_FND {
        TablesPerCode(t, Find(t, code, c), rest[1..]);
      } else {
        LearnDictionary(t, code, c);
        var t' := Learn(t, code, c);
        TablesPerCode(t', Root(t', c), rest[1..]);
      }
    }
  }

  /** The expander's walk from code i ends with at most 3840 bytes stacked. */
  predicate WalkFits(t: Table, i: nat)
    requires Bounded(t.slots) && i < TABSIZE
  {
    var r := Unwind(t.slots, i, 0);
    r.Text? && |r.bytes| - 1 <= 3840 < STACKSIZE
  }

  /** On compressor output no walk of the expander overflows the stack, whichever
      table it has reached (see Lockstep) and whichever of its codes it is given. */
  lemma StackBound(x: seq<Byte>, t: Table, i: nat)
    requires x != [] && t in CompressorTables(x) && Used(t, i)
    ensures Bounded(t.slots) && i < TABSIZE && WalkFits(t, i)
  {
    hide Encode, ExpanderTables, CompressorTables, Threaded, Hashed, Rooted, Distinct, Unwind;
    Lockstep(x);
    DictionarySound(t);
    SpellLength(t, i);
    UnwindSpells(t, i, 0);
  }
}
