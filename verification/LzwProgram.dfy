/** compress.c as it runs: the global table, buffers, carries and stack are the
    fields, and each routine is proved against the functions of LzwTable,
    LzwCodec and LzwPacking. */
module LzwProgram {
  import opened Bytes
  import opened LzwTable
  import opened LzwCodec
  import opened LzwPacking

  const UEOF: nat := 0xFFFF_FFFF

  /** Conversion to a signed 8-bit `char`, and of such a char back to `unsigned`. */
  function ToChar(c: Byte): int { if c < 128 then c else c - 256 }
  function ToUnsigned(c: int): int { if c < 0 then c + 0x1_0000_0000 else c }

  predicate Chars(s: seq<int>) {
    forall i :: 0 <= i < |s| ==> -128 <= s[i] < 128
  }

  /** The bytes that popping a stack writes. */
  function Popped(s: seq<int>): seq<Byte> {
    if s == [] then [] else [s[|s| - 1] % 256] + Popped(s[..|s| - 1])
  }

  function Follow(r: Outcome, w: seq<Byte>): Outcome {
    if r.Text? then Text(r.bytes + w) else r
  }

  /** What the compressor still writes from a given state. */
  function Remaining(t: Table, code: nat, rest: seq<Byte>, carry: nat): seq<Byte>
    requires Dictionary(t) && Used(t, code) && Carry(carry)
  {
    PackFrom(carry, EncodeFrom(t, code, rest))
  }

  lemma RemainingStep(t: Table, code: nat, rest: seq<Byte>, carry: nat)
    requires Dictionary(t) && Used(t, code) && Carry(carry) && rest != []
    ensures var next := Find(t, code, rest[0]);
      if next != NOT_FND then
        Used(t, next) && Remaining(t, code, rest, carry) == Remaining(t, next, rest[1..], carry)
      else
        var t' := Learn(t, code, rest[0]);
        && Dictionary(t') && LinkSafe(t, code, rest[0])
        && Remaining(t, code, rest, carry)
           == PutBytes(carry, code) + Remaining(t', Root(t', rest[0]), rest[1..], PutCarry(carry, code))
  {
    hide H, Find, Insert, Threaded, Hashed, Indexed, Rooted, Distinct, PutBytes, PutCarry;
    FindExact(t, code, rest[0]);
    if Find(t, code, rest[0]) == NOT_FND {
      LearnDictionary(t, code, rest[0]);
    }
  }

  lemma RemainingStart(x: seq<Byte>)
    ensures var y := if x == [] then [255] else x;
      Compressed(x) == Remaining(Start(), Root(Start(), y[0]), y[1..], EMPTY)
  {
    hide Dictionary, Start, Root, EncodeFrom, PackFrom;
    EncodeEnd(Start(), Root(Start(), 255));
    assert [255][1..] == [];
  }

  lemma RemainingEnd(t: Table, code: nat, carry: nat)
    requires Dictionary(t) && Used(t, code) && Carry(carry)
    ensures Remaining(t, code, [], carry) == PutBytes(carry, code) + FlushBytes(PutCarry(carry, code))
  {
    hide H, Find, Insert, EncodeFrom, Dictionary, PutBytes, PutCarry;
    EncodeEnd(t, code);
    assert [code][1..] == [];
    assert PackFrom(carry, [code]) == PutBytes(carry, code) + PackFrom(PutCarry(carry, code), []);
  }

  lemma RootIs(t: Table, c: Byte)
    requires Dictionary(t)
    ensures Find(t, NO_PRED, c) == Root(t, c) && Used(t, Root(t, c))
  {
  }

  class Codec {
    const tab: array<Entry>
    const stack: array<int>
    var sp: nat
    var inbuf: seq<Byte>
    var pos: nat
    var outbuf: seq<Byte>
    var tempIn: nat
    var tempOut: nat
    /** The table with its history; `Valid` ties it to `tab`. */
    ghost var model: Table

    ghost predicate Valid()
      reads this, tab
    {
      && tab.Length == TABSIZE && stack.Length == STACKSIZE
      && Chained(model) && tab[..] == model.slots
    }

    constructor ()
      ensures tab.Length == TABSIZE && stack.Length == STACKSIZE
      ensures fresh(tab) && fresh(stack)
    {
      tab := new Entry[TABSIZE](_ => BLANK);
      stack := new int[STACKSIZE](_ => 0);
    }

    /** The last entry of a collision list. */
    method Eolist(start: nat) returns (index: nat)
      requires Valid() && Used(model, start)
      ensures Used(model, start) && index == EndOfChain(model, start)
    {
      hide H, Hashed;
      index := start;
      while tab[index].next != 0
        invariant index < TABSIZE && Used(model, index)
        invariant EndOfChain(model, index) == EndOfChain(model, start)
        decreases |model.order| - model.rank[index]
      {
        assert tab[index] == model.slots[index];
        assert LinkOk(model, index);
        index := tab[index].next;
      }
    }

    /** The slot for a new pair; with `update` the end of the list is linked to it. */
    method Hash(pred: nat, foll: Byte, update: bool) returns (slot: nat)
      requires Valid() && |model.order| < TABSIZE
      modifies tab
      ensures slot == SlotFor(model, pred, foll)
      ensures tab[..] == var a := H(pred, foll);
        if update && Used(model, a) then Link(model, EndOfChain(model, a), slot).slots else model.slots
    {
      hide H, Threaded, Hashed;
      var local := H(pred, foll);
      if !tab[local].used {
        return local;
      }
      local := Eolist(local);
      slot := (local + 101) % TABSIZE;
      ghost var start := slot;
      ghost var wrapped := false;
      ProbeFree(model, start);
      while tab[slot].used
        invariant slot < TABSIZE
        invariant tab[..] == model.slots
        invariant FirstFree(model.slots, slot) == FirstFree(model.slots, if wrapped then 0 else start)
        invariant wrapped ==> FirstFree(model.slots, start) == TABSIZE
        decreases !wrapped, TABSIZE - slot
      {
        slot := slot + 1;
        if slot == TABSIZE {
          assert !wrapped;
          slot := 0;
          wrapped := true;
        }
      }
      assert slot == Probe(model.slots, start);
      if update {
        tab[local] := tab[local].(next := slot);
      }
    }

    /** Enter a pair in the table. */
    method UpdTab(pred: nat, foll: Byte)
      requires Valid() && |model.order| < TABSIZE && LinkSafe(model, pred, foll)
      modifies tab, `model
      ensures Valid() && model == Insert(old(model), pred, foll)
    {
      hide H, Threaded, Hashed, Indexed;
      var slot := Hash(pred, foll, true);
      tab[slot] := Entry(true, 0, pred, foll);
      InsertChained(model, pred, foll);
      model := Insert(model, pred, foll);
    }

    /** The slot of a pair, or NOT_FND. */
    method Unhash(pred: nat, foll: Byte) returns (local: nat)
      requires Valid()
      ensures local == Find(model, pred, foll)
    {
      hide H, Hashed;
      local := H(pred, foll);
      while !(tab[local].predecessor == pred && tab[local].follower == foll)
        invariant local < TABSIZE
        invariant Search(model, local, pred, foll) == Find(model, pred, foll)
        decreases if Used(model, local) then |model.order| - model.rank[local] else 0
      {
        assert tab[local] == model.slots[local];
        if tab[local].next == 0 {
          return NOT_FND;
        }
        assert Used(model, local) || Blank(model.slots[local]);
        assert LinkOk(model, local);
        local := tab[local].next;
      }
      assert tab[local] == model.slots[local];
    }

    method InitTab()
      requires tab.Length == TABSIZE && stack.Length == STACKSIZE
      modifies tab, `model, `tempIn, `tempOut, `sp
      ensures Valid() && model == Start()
      ensures tempIn == tempOut == EMPTY && sp == 0
    {
      hide H, Chained, Singles, EmptyTable, Insert, Dictionary;
      tempIn, tempOut, sp := EMPTY, EMPTY, 0;
      forall i | 0 <= i < TABSIZE {
        tab[i] := BLANK;
      }
      model := EmptyTable();
      assert tab[..] == model.slots;
      for i := 0 to 256
        invariant Valid() && Seeding(model) && |model.order| == i
        invariant Seed(model) == Start()
        invariant tempIn == tempOut == EMPTY && sp == 0
      {
        SeedingStep(model);
        UpdTab(NO_PRED, i);
      }
    }

    // ----- input and output -----

    method ReadC() returns (c: nat)
      requires pos <= |inbuf|
      modifies `pos
      ensures old(pos) == |inbuf| ==> c == UEOF && pos == old(pos)
      ensures old(pos) < |inbuf| ==> c == inbuf[old(pos)] && pos == old(pos) + 1
    {
      if pos >= |inbuf| {
        c := UEOF;
      } else {
        c := inbuf[pos];
        pos := pos + 1;
      }
    }

    method WriteC(c: nat)
      modifies `outbuf
      ensures outbuf == old(outbuf) + [c % 256]
    {
      outbuf := outbuf + [c % 256];
    }

    method PutCode(code: nat)
      requires Carry(tempOut)
      modifies `outbuf, `tempOut
      ensures outbuf == old(outbuf) + PutBytes(old(tempOut), code)
      ensures tempOut == PutCarry(old(tempOut), code) && Carry(tempOut)
    {
      if tempOut == EMPTY {
        WriteC((code / 16) % 256);
        tempOut := code % 16;
      } else {
        WriteC(tempOut * 16 + (code / 256) % 16);
        WriteC(code % 256);
        tempOut := EMPTY;
      }
    }

    method FlushOut()
      requires Carry(tempOut)
      modifies `outbuf
      ensures outbuf == old(outbuf) + FlushBytes(tempOut)
    {
      if tempOut != EMPTY {
        outbuf := outbuf + [tempOut * 16];
      }
    }

    /** The next code, or UEOF; the codes still to come are what is left. */
    method GetCode() returns (code: nat)
      requires pos <= |inbuf| && Carry(tempIn)
      modifies `pos, `tempIn
      ensures pos <= |inbuf|
      ensures code == UEOF ==> UnpackFrom(old(tempIn), inbuf[old(pos)..]) == []
      ensures code != UEOF ==> code < TABSIZE && Carry(tempIn)
      ensures code != UEOF ==>
        UnpackFrom(old(tempIn), inbuf[old(pos)..]) == [code] + UnpackFrom(tempIn, inbuf[pos..])
    {
      hide UnpackFrom;
      ghost var rest := inbuf[pos..];
      UnpackStep(tempIn, rest);
      var local;
      if tempIn == EMPTY {
        local := ReadC();
        if local == UEOF {
          return UEOF;
        }
        tempIn := ReadC();
        if tempIn == UEOF {
          return UEOF;
        }
        code := (local * 16) % 4096 + (tempIn / 16) % 16;
        tempIn := tempIn % 16;
        assert rest[2..] == inbuf[pos..];
      } else {
        local := ReadC();
        if local == UEOF {
          return UEOF;
        }
        code := local + (tempIn * 256) % 4096;
        tempIn := EMPTY;
        assert rest[1..] == inbuf[pos..];
      }
    }

    // ----- compress -----

    /** The longest match ends before c: emit its code, learn the extension if
        there is room, and start again from c alone. */
    method Emit(code: nat, c: Byte, codeCount: nat, ghost rest: seq<Byte>) returns (next: nat, left: nat)
      requires Valid() && Dictionary(model) && Used(model, code) && Carry(tempOut)
      requires codeCount == TABSIZE - |model.order|
      requires Find(model, code, c) == NOT_FND
      modifies tab, `model, `outbuf, `tempOut
      ensures Valid() && Dictionary(model) && Used(model, next) && Carry(tempOut)
      ensures left == TABSIZE - |model.order|
      ensures outbuf + Remaining(model, next, rest, tempOut)
        == old(outbuf) + Remaining(old(model), code, [c] + rest, old(tempOut))
    {
      hide Find, Insert, Chained, Dictionary, PutBytes, PutCarry, Remaining, Root, LinkSafe;
      RemainingStep(model, code, [c] + rest, tempOut);
      assert ([c] + rest)[1..] == rest;
      PutCode(code);
      left := codeCount;
      if left != 0 {
        UpdTab(code, c);
        left := left - 1;
      }
      next := Unhash(NO_PRED, c);
      RootIs(model, c);
    }

    /** Set up the buffers and the table and take the first byte as the match;
        UEOF, when there is none, passes for the byte 255. */
    method Begin(x: seq<Byte>) returns (code: nat)
      requires tab.Length == TABSIZE && stack.Length == STACKSIZE
      modifies this, tab
      ensures Valid() && Dictionary(model) && Used(model, code) && |model.order| == 256
      ensures inbuf == x && pos == (if x == [] then 0 else 1) && tempOut == EMPTY
      ensures Compressed(x) == outbuf + Remaining(model, code, x[pos..], tempOut)
    {
      hide Find, Insert, Start, Chained, Dictionary, Remaining, Root, Compressed;
      inbuf, pos, outbuf := x, 0, [];
      InitTab();
      var c := ReadC();
      code := Unhash(NO_PRED, c % 256);
      RootIs(model, c % 256);
      RemainingStart(x);
      assert x[pos..] == (if x == [] then [255] else x)[1..];
    }

    method Compress(x: seq<Byte>) returns (bytes: seq<Byte>)
      requires tab.Length == TABSIZE && stack.Length == STACKSIZE
      modifies this, tab
      ensures bytes == Compressed(x)
    {
      hide Find, Insert, Chained, Dictionary, PutBytes, PutCarry, Remaining, Root, Compressed;
      var codeCount := TABSIZE - 256;
      var code := Begin(x);
      ghost var rest := x[pos..];
      var c := ReadC();
      while c != UEOF
        invariant inbuf == x && pos <= |x| && Carry(tempOut)
        invariant Valid() && Dictionary(model) && Used(model, code)
        invariant codeCount == TABSIZE - |model.order| >= 0
        invariant if c == UEOF then rest == [] else c < 256 && rest == [c] + x[pos..]
        invariant Compressed(x) == outbuf + Remaining(model, code, rest, tempOut)
        decreases |x| - pos, c != UEOF
      {
        rest := x[pos..];
        var localCode := Unhash(code, c);
        if localCode != NOT_FND {
          RemainingStep(model, code, [c] + rest, tempOut);
          assert ([c] + rest)[1..] == rest;
          code := localCode;
        } else {
          code, codeCount := Emit(code, c, codeCount, rest);
        }
        c := ReadC();
        assert c != UEOF ==> rest == [c] + x[pos..];
      }
      RemainingEnd(model, code, tempOut);
      PutCode(code);
      FlushOut();
      bytes := outbuf;
    }

    // ----- uncompress -----

    /** Reports whether the fatal exit is taken. */
    method Push(c: Byte) returns (fatal: bool)
      requires sp < stack.Length == STACKSIZE
      modifies stack, `sp
      ensures sp == old(sp) + 1 && stack[..sp] == old(stack[..sp]) + [ToChar(c)]
      ensures fatal == (sp >= STACKSIZE)
    {
      stack[sp] := ToChar(c);
      sp := sp + 1;
      fatal := sp >= STACKSIZE;
    }

    method Pop() returns (c: nat)
      requires sp <= stack.Length && Chars(stack[..sp])
      modifies `sp
      ensures old(sp) == 0 ==> c == EMPTY && sp == 0
      ensures old(sp) > 0 ==> sp == old(sp) - 1 && c == ToUnsigned(stack[sp]) && c != EMPTY
    {
      if sp > 0 {
        sp := sp - 1;
        assert -128 <= stack[..sp + 1][sp] < 128;
        c := ToUnsigned(stack[sp]);
      } else {
        c := EMPTY;
      }
    }

    /** Follow the predecessors of `start`, stacking the followers. */
    method Walk(start: nat) returns (fatal: bool, fin: Byte)
      requires Valid() && Bounded(model.slots) && start < TABSIZE && sp == 0
      modifies stack, `sp
      ensures fatal ==> Unwind(model.slots, start, 0) == StackOverflow
      ensures !fatal ==> sp < STACKSIZE && Chars(stack[..sp])
      ensures !fatal ==> Unwind(model.slots, start, 0) == Text([fin] + Popped(stack[..sp]))
    {
      hide Chained, Unwind, Popped;
      var code: nat := start;
      fin := 0;
      ghost var stacked: seq<int> := [];
      PoppedNone();
      assert Unwind(model.slots, start, 0).Text? ==>
        Unwind(model.slots, start, 0).bytes + [] == Unwind(model.slots, start, 0).bytes;
      while tab[code].predecessor != NO_PRED
        invariant code < TABSIZE && sp < STACKSIZE
        invariant stacked == stack[..sp] && Chars(stacked)
        invariant Unwind(model.slots, start, 0) == Follow(Unwind(model.slots, code, sp), Popped(stacked))
        decreases STACKSIZE - sp
      {
        var e := tab[code];
        assert e == model.slots[code];
        UnwindPush(model.slots, code, stacked);
        fatal := Push(e.follower);
        stacked := stacked + [ToChar(e.follower)];
        if fatal {
          return;
        }
        code := e.predecessor;
      }
      fatal := false;
      fin := tab[code].follower;
      assert tab[code] == model.slots[code];
      UnwindRoot(model.slots, code, sp);
    }

    /** Write everything on the stack. */
    method Drain()
      requires sp <= stack.Length && Chars(stack[..sp])
      modifies `sp, `outbuf
      ensures sp == 0 && outbuf == old(outbuf) + Popped(old(stack[..sp]))
    {
      hide Popped;
      ghost var all, goal := stack[..sp], outbuf + Popped(stack[..sp]);
      PoppedNone();
      assert all[..sp] == all;
      var c := Pop();
      while c != EMPTY
        invariant stack[..|all|] == all && Chars(all)
        invariant c == EMPTY ==> sp == 0 && outbuf == goal
        invariant c != EMPTY ==> sp < |all| && c == ToUnsigned(all[sp]) && goal == outbuf + Popped(all[..sp + 1])
        decreases sp, c != EMPTY
      {
        PoppedStep(all, sp);
        assert c % 256 == all[sp] % 256;
        WriteC(c);
        assert goal == outbuf + Popped(all[..sp]);
        assert stack[..sp] == all[..sp];
        c := Pop();
      }
    }

    /** One received code: write its string and learn the entry that `prev` and
        this string's first byte make. */
    method Expand(code: nat, prev: nat, fin: Byte, codeCount: nat) returns (fatal: bool, fin': Byte, left: nat)
      requires Valid() && Sound(model) && code < TABSIZE && prev < TABSIZE && sp == 0
      requires codeCount == TABSIZE - |model.order|
      modifies tab, stack, `sp, `outbuf, `model
      ensures fatal ==> DecodeOne(old(model), prev, fin, code) == StackOverflow
      ensures !fatal ==> Valid() && Sound(model) && sp == 0 && left == TABSIZE - |model.order|
      ensures !fatal ==> var r := DecodeOne(old(model), prev, fin, code);
        && r.Text? && outbuf == old(outbuf) + r.bytes
        && fin' == NewFin(old(model), fin, code, r.bytes)
        && model == Learn(old(model), prev, fin')
    {
      hide Chained, Unwind, Popped, Insert, H;
      left := codeCount;
      var unknown := !tab[code].used;
      fatal, fin' := Walk(if unknown then prev else code);
      if fatal {
        return;
      }
      WriteC(fin');
      Drain();
      if unknown {
        WriteC(fin);
        fin' := fin;
      }
      LearnSound(model, prev, fin');
      if left != 0 {
        UpdTab(prev, fin');
        left := left - 1;
      }
    }

    method Uncompress(bytes: seq<Byte>) returns (r: Outcome)
      requires tab.Length == TABSIZE && stack.Length == STACKSIZE
      modifies this, tab, stack
      ensures r == Expanded(bytes)
    {
      hide Start, Chained, Dictionary, Unwind, UnpackFrom, DecodeOne, NewFin, Learn;
      var codeCount := TABSIZE - 256;
      inbuf, pos, outbuf := bytes, 0, [];
      InitTab();
      DictionarySound(model);
      assert bytes[0..] == bytes;
      var prev: nat := GetCode();
      if prev == UEOF {
        return NoCode;
      }
      var fin := tab[prev].follower;
      WriteC(fin);
      ghost var rest := UnpackFrom(tempIn, inbuf[pos..]);
      assert Unpack(bytes)[1..] == rest;
      assert Expanded(bytes) == Prepend([fin], DecodeFrom(model, prev, fin, rest));
      var code := GetCode();
      while code != UEOF
        invariant inbuf == bytes && pos <= |bytes| && sp == 0 && tempOut == EMPTY
        invariant Valid() && Sound(model) && prev < TABSIZE
        invariant codeCount == TABSIZE - |model.order| >= 0
        invariant Codes(rest)
        invariant if code == UEOF then rest == []
          else code < TABSIZE && Carry(tempIn) && rest == [code] + UnpackFrom(tempIn, inbuf[pos..])
        invariant Expanded(bytes) == Prepend(outbuf, DecodeFrom(model, prev, fin, rest))
        decreases |rest|
      {
        ghost var t, base, f := model, outbuf, fin;
        var fatal;
        fatal, fin, codeCount := Expand(code, prev, fin, codeCount);
        if fatal {
          return StackOverflow;
        }
        assert rest[1..] == UnpackFrom(tempIn, inbuf[pos..]);
        DecodeStep(t, prev, f, rest, base);
        prev := code;
        rest := rest[1..];
        code := GetCode();
      }
      FlushOut();
      r := Text(outbuf);
    }
  }

  lemma PoppedNone()
    ensures Popped([]) == []
  {
  }

  lemma PoppedStep(s: seq<int>, k: nat)
    requires k < |s|
    ensures Popped(s[..k + 1]) == [s[k] % 256] + Popped(s[..k])
  {
    assert s[..k + 1][..k] == s[..k];
  }

  lemma PoppedPush(stacked: seq<int>, f: Byte)
    ensures Popped(stacked + [ToChar(f)]) == [f] + Popped(stacked)
  {
    var s := stacked + [ToChar(f)];
    assert s[..|s| - 1] == stacked;
  }

  lemma UnwindRoot(slots: seq<Entry>, code: nat, sp: nat)
    requires Bounded(slots) && code < TABSIZE && sp < STACKSIZE && slots[code].predecessor == NO_PRED
    ensures Unwind(slots, code, sp) == Text([slots[code].follower])
  {
  }

  lemma UnwindPush(slots: seq<Entry>, code: nat, stacked: seq<int>)
    requires Bounded(slots) && code < TABSIZE && |stacked| < STACKSIZE
    requires slots[code].predecessor != NO_PRED
    ensures var e, sp := slots[code], |stacked|;
      Follow(Unwind(slots, code, sp), Popped(stacked)) ==
      if sp + 1 >= STACKSIZE then StackOverflow
      else Follow(Unwind(slots, e.predecessor, sp + 1), Popped(stacked + [ToChar(e.follower)]))
  {
    hide Popped;
    var e, p := slots[code], Popped(stacked);
    if |stacked| + 1 < STACKSIZE {
      PoppedPush(stacked, e.follower);
      var r := Unwind(slots, e.predecessor, |stacked| + 1);
      if r.Text? {
        assert r.bytes + [e.follower] + p == r.bytes + ([e.follower] + p);
      }
    }
  }

  lemma DecodeStep(t: Table, prev: nat, fin: Byte, codes: seq<nat>, base: seq<Byte>)
    requires Sound(t) && prev < TABSIZE && Codes(codes) && codes != []
    requires DecodeOne(t, prev, fin, codes[0]).Text?
    ensures var w := DecodeOne(t, prev, fin, codes[0]).bytes;
      var f := NewFin(t, fin, codes[0], w);
      && Sound(Learn(t, prev, f))
      && Prepend(base, DecodeFrom(t, prev, fin, codes))
         == Prepend(base + w, DecodeFrom(Learn(t, prev, f), codes[0], f, codes[1..]))
  {
    hide Chained, DecodeOne, NewFin, Learn;
    var w := DecodeOne(t, prev, fin, codes[0]).bytes;
    var f := NewFin(t, fin, codes[0], w);
    LearnSound(t, prev, f);
    var r := DecodeFrom(Learn(t, prev, f), codes[0], f, codes[1..]);
    if r.Text? {
      assert base + (w + r.bytes) == base + w + r.bytes;
    }
  }
}
