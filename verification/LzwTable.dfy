/** The string table of the player-file compressor (util/ed/compress.c): a
    coalesced hash table of 4096 slots whose slot numbers are the codes. */
module LzwTable {
  import opened Bytes

  const TABSIZE: nat := 4096
  const NO_PRED: nat := 0xFFFF
  const NOT_FND: nat := 0xFFFF

  /** `struct entry`; `next == 0` marks the end of a collision list. */
  datatype Entry = Entry(used: bool, next: nat, predecessor: nat, follower: Byte)

  const BLANK := Entry(false, 0, 0, 0)

  predicate Blank(e: Entry) { e == BLANK }

  /** `x | 0x0800` */
  function SetBit11(x: nat): (r: nat)
    ensures x <= r <= x + 2048
  {
    if (x / 2048) % 2 == 1 then x else x + 2048
  }

  /** The mid-square hash. */
  function H(pred: nat, foll: Byte): (r: nat)
    ensures r < TABSIZE
  {
    var x := SetBit11(pred + foll);
    ((x * x) / 64) % 4096
  }

  /** The hash value are the twelve bits from bit 6 on of the square of the sum,
      in which bit 11 has been set. */
  lemma HashIsMidSquare(pred: nat, foll: Byte) returns (x: nat, hi: nat, lo: nat)
    ensures x / 4096 == (pred + foll) / 4096 && (x / 2048) % 2 == 1 && x % 2048 == (pred + foll) % 2048
    ensures x * x == (hi * 4096 + H(pred, foll)) * 64 + lo && lo < 64 && H(pred, foll) < 4096
  {
    hide SetBit11;
    x := SetBit11(pred + foll);
    Bit11(pred + foll);
    hi, lo := x * x / 64 / 4096, x * x % 64;
    MidDigits(x * x);
  }

  lemma Bit11(n: nat)
    ensures var x := SetBit11(n); x / 4096 == n / 4096 && (x / 2048) % 2 == 1 && x % 2048 == n % 2048
  {
    var q, r := n / 2048, n % 2048;
    assert n == 2048 * q + r;
    Digits2048(q, r);
    Digits2048(q + 1, r);
  }

  lemma Digits2048(q: nat, r: nat)
    requires r < 2048
    ensures var x := 2048 * q + r; x / 2048 == q && x % 2048 == r && x / 4096 == q / 2
  {
    assert q == 2 * (q / 2) + q % 2;
  }

  lemma MidDigits(y: nat)
    ensures y == (y / 64 / 4096 * 4096 + (y / 64) % 4096) * 64 + y % 64
  {
  }

  /** A table together with the history that produced it: `order` lists the
      slots as they were filled, `rank` inverts it, and `head` names the first
      slot of the collision list a slot belongs to. Only `slots` exists in the
      program; the other three are determined by the insertions made. */
  datatype Table = Table(slots: seq<Entry>, order: seq<nat>, rank: seq<nat>, head: seq<nat>)

  predicate Used(t: Table, i: int) {
    0 <= i < |t.slots| && t.slots[i].used
  }

  predicate Sized(t: Table) {
    |t.slots| == |t.rank| == |t.head| == TABSIZE && |t.order| <= TABSIZE
  }

  /** `order` and `rank` are inverse to each other on the used slots, and every
      other slot is as `memset` left it. */
  ghost predicate Indexed(t: Table)
    requires Sized(t)
  {
    && (forall k :: 0 <= k < |t.order| ==> Used(t, t.order[k]) && t.rank[t.order[k]] == k)
    && (forall i {:trigger t.rank[i]} :: Used(t, i) ==> t.rank[i] < |t.order| && t.order[t.rank[i]] == i)
    && (forall i {:trigger Blank(t.slots[i])} :: 0 <= i < TABSIZE && !Used(t, i) ==> Blank(t.slots[i]))
  }

  /** Slot j follows slot i on the same collision list. */
  predicate After(t: Table, i: int, j: int)
    requires Sized(t)
  {
    Used(t, i) && Used(t, j) && t.head[i] == t.head[j] && t.rank[i] < t.rank[j]
  }

  /** A link leads to a later member of the same list. */
  predicate LinkOk(t: Table, i: int)
    requires Sized(t)
  {
    Used(t, i) && t.slots[i].next != 0 ==> After(t, i, t.slots[i].next)
  }

  /** Slot i has a link, which leads no further than slot j. */
  predicate NextWithin(t: Table, i: int, j: int)
    requires Sized(t) && Used(t, i) && Used(t, j)
  {
    0 < t.slots[i].next < TABSIZE && t.rank[t.slots[i].next] <= t.rank[j]
  }

  /** The `next` fields thread each collision list in insertion order: a link
      leads to the very next member and 0 stands at the last one. */
  ghost predicate Threaded(t: Table)
    requires Sized(t)
  {
    && (forall i {:trigger t.head[i]} :: Used(t, i) ==> Used(t, t.head[i]))
    && (forall i {:trigger LinkOk(t, i)} :: LinkOk(t, i))
    && (forall i, j {:trigger After(t, i, j)} :: After(t, i, j) ==> NextWithin(t, i, j))
  }

  /** Every entry lies on the list that starts at its own hash value. */
  ghost predicate Hashed(t: Table)
    requires Sized(t)
  {
    forall i {:trigger HashOk(t, i)} :: HashOk(t, i)
  }

  predicate HashOk(t: Table, i: int)
    requires Sized(t)
  {
    Used(t, i) ==>
      var a := H(t.slots[i].predecessor, t.slots[i].follower);
      Used(t, a) && (a == i || After(t, a, i))
  }

  ghost predicate Chained(t: Table) {
    Sized(t) && Indexed(t) && Threaded(t) && Hashed(t)
  }

  // ----- eolist -----

  /** The last member of the list slot a is on. */
  function EndOfChain(t: Table, a: nat): (e: nat)
    requires Chained(t) && Used(t, a)
    ensures Used(t, e) && t.slots[e].next == 0 && t.head[e] == t.head[a]
    decreases |t.order| - t.rank[a]
  {
    assert LinkOk(t, a);
    if t.slots[a].next == 0 then a else EndOfChain(t, t.slots[a].next)
  }

  // ----- the linear probe of hash -----

  /** The first free slot at or after j, or TABSIZE. */
  function FirstFree(slots: seq<Entry>, j: nat): (r: nat)
    requires j <= |slots|
    ensures j <= r <= |slots|
    ensures r < |slots| ==> !slots[r].used
    decreases |slots| - j
  {
    if j == |slots| || !slots[j].used then j else FirstFree(slots, j + 1)
  }

  lemma {:induction false} FirstFreeFinds(slots: seq<Entry>, j: nat, i: nat)
    requires j <= i < |slots| && !slots[i].used
    ensures FirstFree(slots, j) <= i
    decreases i - j
  {
    if slots[j].used { FirstFreeFinds(slots, j + 1, i); }
  }

  /** Scanning upwards from j and round again from 0. */
  function Probe(slots: seq<Entry>, j: nat): nat
    requires j <= |slots|
  {
    var r := FirstFree(slots, j);
    if r < |slots| then r else FirstFree(slots, 0)
  }

  /** Pigeonhole: distinct values below m number at most m. */
  lemma {:induction false} Pigeonhole(s: seq<nat>, m: nat)
    requires forall i :: 0 <= i < |s| ==> s[i] < m
    requires forall i, j :: 0 <= i < j < |s| ==> s[i] != s[j]
    ensures |s| <= m
    decreases m
  {
    if |s| > 0 {
      assert s[0] < m;
      if i :| 0 <= i < |s| && s[i] == m - 1 {
        var rest := s[..i] + s[i + 1..];
        assert |rest| == |s| - 1;
        Pigeonhole(rest, m - 1);
      } else {
        Pigeonhole(s, m - 1);
      }
    }
  }

  /** As long as fewer insertions were made than there are slots, one is free. */
  lemma SomeSlotFree(t: Table)
    requires Sized(t) && Indexed(t) && |t.order| < TABSIZE
    ensures exists i :: 0 <= i < TABSIZE && !t.slots[i].used
  {
    if forall i :: 0 <= i < TABSIZE ==> t.slots[i].used {
      forall i | 0 <= i < TABSIZE ensures t.rank[i] < |t.order| && t.order[t.rank[i]] == i {
        assert Used(t, i);
      }
      Pigeonhole(t.rank, |t.order|);
    }
  }

  lemma ProbeFree(t: Table, j: nat)
    requires Sized(t) && Indexed(t) && |t.order| < TABSIZE && j < TABSIZE
    ensures Probe(t.slots, j) < TABSIZE && !Used(t, Probe(t.slots, j))
  {
    SomeSlotFree(t);
    var i :| 0 <= i < TABSIZE && !t.slots[i].used;
    FirstFreeFinds(t.slots, 0, i);
  }

  // ----- hash with UPDATE, and upd_tab -----

  /** Fill slot s, as a member of the list headed by hd. */
  function Fill(t: Table, s: nat, hd: nat, pred: nat, foll: Byte): Table
    requires Sized(t) && s < TABSIZE
  {
    Table(t.slots[s := Entry(true, 0, pred, foll)], t.order + [s], t.rank[s := |t.order|], t.head[s := hd])
  }

  /** Point the last member e of a list at slot n. */
  function Link(t: Table, e: nat, n: nat): Table
    requires e < |t.slots|
  {
    t.(slots := t.slots[e := t.slots[e].(next := n)])
  }

  /** The slot `hash` settles on when the hash value is a. */
  function SlotAt(t: Table, a: nat): (s: nat)
    requires Chained(t) && |t.order| < TABSIZE && a < TABSIZE
    ensures s < TABSIZE && !Used(t, s)
    ensures !Used(t, a) ==> s == a
  {
    if !Used(t, a) then a else
      var j := (EndOfChain(t, a) + 101) % TABSIZE;
      ProbeFree(t, j);
      Probe(t.slots, j)
  }

  /** A new pair goes to its hash value's slot if that is free, and else to the
      first free slot from 101 behind the end of the list on, round and round. */
  lemma SlotIsNearest(t: Table, a: nat)
    requires Chained(t) && |t.order| < TABSIZE && a < TABSIZE
    ensures var s := SlotAt(t, a);
      if !Used(t, a) then s == a else
        var j := (EndOfChain(t, a) + 101) % 4096;
        && !Used(t, s)
        && (s >= j ==> forall i :: j <= i < s ==> Used(t, i))
        && (s < j ==> (forall i :: j <= i < 4096 ==> Used(t, i)) && (forall i :: 0 <= i < s ==> Used(t, i)))
  {
    hide Threaded, Hashed, Indexed;
    if Used(t, a) {
      var j := (EndOfChain(t, a) + 101) % TABSIZE;
      ProbeFree(t, j);
      UsedBefore(t, j);
      UsedBefore(t, 0);
    }
  }

  lemma UsedBefore(t: Table, j: nat)
    requires j <= |t.slots|
    ensures forall i :: j <= i < FirstFree(t.slots, j) ==> Used(t, i)
  {
    forall i | j <= i < FirstFree(t.slots, j) ensures Used(t, i) {
      if !t.slots[i].used { FirstFreeFinds(t.slots, j, i); }
    }
  }

  function InsertAt(t: Table, a: nat, pred: nat, foll: Byte): (t': Table)
    requires Chained(t) && |t.order| < TABSIZE && a < TABSIZE
  {
    var s := SlotAt(t, a);
    if !Used(t, a) then
      Fill(t, s, s, pred, foll)
    else
      var e := EndOfChain(t, a);
      Fill(Link(t, e, s), s, t.head[e], pred, foll)
  }

  function SlotFor(t: Table, pred: nat, foll: Byte): nat
    requires Chained(t) && |t.order| < TABSIZE
  {
    SlotAt(t, H(pred, foll))
  }

  /** `upd_tab` */
  function Insert(t: Table, pred: nat, foll: Byte): (t': Table)
    requires Chained(t) && |t.order| < TABSIZE
    ensures Grown(t, t', SlotFor(t, pred, foll), pred, foll)
  {
    InsertAtGrows(t, H(pred, foll), pred, foll);
    InsertAt(t, H(pred, foll), pred, foll)
  }

  /** What an insertion into the free slot s changes: that slot becomes the
      newest entry, and every other entry keeps its pair. */
  ghost predicate Grown(t: Table, t': Table, s: nat, pred: nat, foll: Byte) {
    && Sized(t) && Sized(t') && s < TABSIZE && !Used(t, s) && Used(t', s)
    && t'.order == t.order + [s]
    && t'.rank == t.rank[s := |t.order|]
    && t'.slots[s] == Entry(true, 0, pred, foll)
    && (forall i :: 0 <= i < TABSIZE && i != s ==>
          && t'.slots[i].used == t.slots[i].used
          && (t'.slots[i].used || t'.slots[i] == t.slots[i])
          && t'.head[i] == t.head[i]
          && t'.slots[i].predecessor == t.slots[i].predecessor
          && t'.slots[i].follower == t.slots[i].follower)
  }

  lemma FillGrows(t: Table, s: nat, hd: nat, pred: nat, foll: Byte)
    requires Sized(t) && |t.order| < TABSIZE && s < TABSIZE && !Used(t, s)
    ensures Grown(t, Fill(t, s, hd, pred, foll), s, pred, foll)
  {
  }

  lemma LinkGrows(t: Table, e: nat, s: nat, hd: nat, pred: nat, foll: Byte)
    requires Sized(t) && |t.order| < TABSIZE && s < TABSIZE && !Used(t, s) && Used(t, e)
    ensures Grown(t, Fill(Link(t, e, s), s, hd, pred, foll), s, pred, foll)
  {
  }

  lemma InsertAtGrows(t: Table, a: nat, pred: nat, foll: Byte)
    requires Chained(t) && |t.order| < TABSIZE && a < TABSIZE
    ensures Grown(t, InsertAt(t, a, pred, foll), SlotAt(t, a), pred, foll)
  {
    var s := SlotAt(t, a);
    if Used(t, a) {
      var e := EndOfChain(t, a);
      LinkGrows(t, e, s, t.head[e], pred, foll);
    } else {
      FillGrows(t, s, s, pred, foll);
    }
  }

  lemma GrownIndexed(t: Table, t': Table, s: nat, pred: nat, foll: Byte)
    requires Grown(t, t', s, pred, foll) && Indexed(t)
    ensures Indexed(t')
  {
    forall k | 0 <= k < |t'.order| ensures Used(t', t'.order[k]) && t'.rank[t'.order[k]] == k {
      if k < |t.order| { assert Used(t, t.order[k]); }
    }
    forall i | Used(t', i) ensures t'.rank[i] < |t'.order| && t'.order[t'.rank[i]] == i {
      if i != s { assert Used(t, i); }
    }
    forall i | 0 <= i < TABSIZE && !Used(t', i) ensures Blank(t'.slots[i]) {
      assert !Used(t, i) && Blank(t.slots[i]);
    }
  }

  /** Slot 0 doubles as the end mark, so it must never be linked to. It is not
      once it is used, nor by an insertion that goes straight to its hash slot. */
  predicate LinkSafe(t: Table, pred: nat, foll: Byte) {
    Used(t, 0) || !Used(t, H(pred, foll))
  }

  lemma FillThreaded(t: Table, s: nat, pred: nat, foll: Byte)
    requires Sized(t) && Indexed(t) && Threaded(t) && |t.order| < TABSIZE
    requires s < TABSIZE && !Used(t, s)
    ensures Threaded(Fill(t, s, s, pred, foll))
  {
    var t' := Fill(t, s, s, pred, foll);
    forall i, j | After(t', i, j) ensures NextWithin(t', i, j) {
      assert After(t, i, j) && LinkOk(t, i);
    }
    forall i ensures LinkOk(t', i) {
      assert LinkOk(t, i);
    }
    forall i | Used(t', i) ensures Used(t', t'.head[i]) {
      if i != s { assert Used(t, t.head[i]); }
    }
  }

  lemma LinkThreaded(t: Table, e: nat, s: nat, pred: nat, foll: Byte)
    requires Sized(t) && Indexed(t) && Threaded(t) && |t.order| < TABSIZE
    requires 0 < s < TABSIZE && !Used(t, s)
    requires Used(t, e) && t.slots[e].next == 0
    ensures Threaded(Fill(Link(t, e, s), s, t.head[e], pred, foll))
  {
    var t' := Fill(Link(t, e, s), s, t.head[e], pred, foll);
    forall i ensures LinkOk(t', i) {
      assert LinkOk(t, i);
    }
    forall i, j | After(t', i, j) ensures NextWithin(t', i, j) {
      if j != s {
        assert After(t, i, j) && LinkOk(t, i);
      } else if i != e {
        assert !After(t, e, i);
        assert After(t, i, e);
        assert LinkOk(t, i);
      }
    }
    forall i | Used(t', i) ensures Used(t', t'.head[i]) {
      assert Used(t, if i == s then t.head[e] else t.head[i]);
    }
  }

  lemma GrownHashed(t: Table, t': Table, s: nat, pred: nat, foll: Byte)
    requires Grown(t, t', s, pred, foll) && Indexed(t) && Hashed(t)
    requires var a := H(pred, foll); s == a || (Used(t, a) && t'.head[s] == t.head[a])
    ensures Hashed(t')
  {
    hide H;
    forall i ensures HashOk(t', i) {
      assert HashOk(t, i);
    }
  }

  lemma InsertAtThreaded(t: Table, a: nat, pred: nat, foll: Byte)
    requires Chained(t) && |t.order| < TABSIZE && a < TABSIZE
    requires Used(t, 0) || !Used(t, a)
    ensures Threaded(InsertAt(t, a, pred, foll))
  {
    var s := SlotAt(t, a);
    if Used(t, a) {
      var e := EndOfChain(t, a);
      assert s != 0;
      LinkThreaded(t, e, s, pred, foll);
      assert InsertAt(t, a, pred, foll) == Fill(Link(t, e, s), s, t.head[e], pred, foll);
    } else {
      FillThreaded(t, s, pred, foll);
    }
  }

  lemma InsertAtIndexed(t: Table, a: nat, pred: nat, foll: Byte)
    requires Chained(t) && |t.order| < TABSIZE && a < TABSIZE
    ensures var s, t' := SlotAt(t, a), InsertAt(t, a, pred, foll);
      && Indexed(t')
      && (s == a || (Used(t, a) && t'.head[s] == t.head[a]))
  {
    InsertAtGrows(t, a, pred, foll);
    GrownIndexed(t, InsertAt(t, a, pred, foll), SlotAt(t, a), pred, foll);
  }

  /** Every insertion keeps the collision lists sound. */
  lemma InsertChained(t: Table, pred: nat, foll: Byte)
    requires Chained(t) && |t.order| < TABSIZE && LinkSafe(t, pred, foll)
    ensures Chained(Insert(t, pred, foll))
  {
    InsertAtThreaded(t, H(pred, foll), pred, foll);
    InsertAtIndexed(t, H(pred, foll), pred, foll);
    GrownHashed(t, Insert(t, pred, foll), SlotFor(t, pred, foll), pred, foll);
  }

  // ----- unhash -----

  predicate Holds(t: Table, i: int, pred: nat, foll: Byte) {
    Used(t, i) && t.slots[i].predecessor == pred && t.slots[i].follower == foll
  }

  ghost predicate Absent(t: Table, pred: nat, foll: Byte) {
    forall i :: !Holds(t, i, pred, foll)
  }

  /** The loop of `unhash`, which compares pairs without looking at `used`. */
  function Search(t: Table, a: nat, pred: nat, foll: Byte): nat
    requires Chained(t) && a < TABSIZE
    decreases if Used(t, a) then |t.order| - t.rank[a] else 0
  {
    if t.slots[a].predecessor == pred && t.slots[a].follower == foll then a
    else if t.slots[a].next == 0 then NOT_FND
    else
      assert (Used(t, a) || Blank(t.slots[a])) && LinkOk(t, a);
      Search(t, t.slots[a].next, pred, foll)
  }

  function Find(t: Table, pred: nat, foll: Byte): nat
    requires Chained(t)
  {
    Search(t, H(pred, foll), pred, foll)
  }

  lemma {:induction false} SearchSound(t: Table, a: nat, pred: nat, foll: Byte)
    requires Chained(t) && Used(t, a)
    ensures var r := Search(t, a, pred, foll); r == NOT_FND || Holds(t, r, pred, foll)
    decreases |t.order| - t.rank[a]
  {
    if !Holds(t, a, pred, foll) && t.slots[a].next != 0 {
      assert LinkOk(t, a);
      SearchSound(t, t.slots[a].next, pred, foll);
    }
  }

  /** A link leads on towards every later member of the list. */
  lemma NextToward(t: Table, a: nat, i: nat)
    requires Chained(t) && After(t, a, i)
    ensures var b := t.slots[a].next; b != 0 && After(t, a, b) && (b == i || After(t, b, i))
  {
    hide H, Hashed;
    var b := t.slots[a].next;
    assert LinkOk(t, a) && t.rank[b] <= t.rank[i];
    assert t.order[t.rank[b]] == b && t.order[t.rank[i]] == i;
  }

  lemma {:induction false} SearchComplete(t: Table, a: nat, pred: nat, foll: Byte, i: nat)
    requires Chained(t) && Used(t, a) && Holds(t, i, pred, foll)
    requires a == i || After(t, a, i)
    ensures Search(t, a, pred, foll) != NOT_FND
    decreases |t.order| - t.rank[a]
  {
    hide H, Hashed;
    if !Holds(t, a, pred, foll) {
      NextToward(t, a, i);
      SearchComplete(t, t.slots[a].next, pred, foll, i);
    }
  }

  /** The pair (0, 0) is the one a blank slot seems to hold; its own hash slot
      is slot 0, so no lookup of it starts at a blank slot once slot 0 is used. */
  lemma HashValues()
    ensures H(0, 0) == 0
    ensures H(NO_PRED, 0) == 2048
    ensures H(NO_PRED, 1) == 0
  {
    assert SetBit11(0) == 2048 && (2048 * 2048) / 64 == 65536 == 16 * 4096;
    assert SetBit11(65535) == 65535 && (65535 * 65535) / 64 == 67106816 == 16383 * 4096 + 2048;
    assert SetBit11(65536) == 67584 && (67584 * 67584) / 64 == 71368704 == 17424 * 4096;
  }

  /** `unhash` finds a pair exactly if it is in the table. */
  lemma FindExact(t: Table, pred: nat, foll: Byte)
    requires Chained(t) && Used(t, 0)
    ensures var r := Find(t, pred, foll);
      && (r != NOT_FND ==> Holds(t, r, pred, foll))
      && (r == NOT_FND <==> Absent(t, pred, foll))
  {
    hide H;
    var a := H(pred, foll);
    if Used(t, a) {
      SearchSound(t, a, pred, foll);
    } else {
      HashValues();
      assert Blank(t.slots[a]);
    }
    forall i | Holds(t, i, pred, foll) ensures Find(t, pred, foll) != NOT_FND {
      assert HashOk(t, i);
      SearchComplete(t, a, pred, foll, i);
    }
  }

  // ----- tables that hold strings -----

  /** The first n entries are the single bytes below n. */
  ghost predicate Singles(t: Table, n: nat)
    requires n <= 256 && n <= |t.order|
  {
    forall k {:trigger Holds(t, t.order[k], NO_PRED, k)} :: 0 <= k < n ==> Holds(t, t.order[k], NO_PRED, k)
  }

  /** The first 256 entries are the single bytes, every later entry extends an
      earlier one, and no pair occurs twice. */
  ghost predicate Rooted(t: Table)
    requires Sized(t) && Indexed(t)
  {
    && 256 <= |t.order|
    && Singles(t, 256)
    && (forall i {:trigger PredecessorOk(t, i)} :: PredecessorOk(t, i))
  }

  /** Every later entry extends one entered before it. */
  predicate PredecessorOk(t: Table, i: int)
    requires Sized(t)
  {
    Used(t, i) && 256 <= t.rank[i] ==>
      Used(t, t.slots[i].predecessor) && t.rank[t.slots[i].predecessor] < t.rank[i]
  }

  /** Different slots hold different pairs. */
  predicate Distinguished(t: Table, i: int, j: int) {
    Used(t, i) && Holds(t, j, t.slots[i].predecessor, t.slots[i].follower) ==> i == j
  }

  ghost predicate Distinct(t: Table) {
    forall i, j {:trigger Distinguished(t, i, j)} :: Distinguished(t, i, j)
  }

  ghost predicate Dictionary(t: Table) {
    Chained(t) && Used(t, 0) && Rooted(t) && Distinct(t)
  }

  lemma GrownRooted(t: Table, t': Table, s: nat, pred: nat, foll: Byte)
    requires Grown(t, t', s, pred, foll) && Indexed(t) && Indexed(t') && Rooted(t) && Used(t, pred)
    ensures Rooted(t')
  {
    forall k | 0 <= k < 256 ensures Holds(t', t'.order[k], NO_PRED, k) {
      assert Holds(t, t.order[k], NO_PRED, k);
    }
    forall i ensures PredecessorOk(t', i) {
      assert PredecessorOk(t, i) && t.rank[pred] < |t.order|;
    }
  }

  lemma GrownDistinct(t: Table, t': Table, s: nat, pred: nat, foll: Byte)
    requires Grown(t, t', s, pred, foll) && Distinct(t) && Absent(t, pred, foll)
    ensures Distinct(t')
  {
    forall i, j ensures Distinguished(t', i, j) {
      assert Distinguished(t, i, j);
      assert !Holds(t, i, pred, foll) && !Holds(t, j, pred, foll);
    }
  }

  /** Entering a new extension of an entry keeps the table a dictionary. */
  lemma InsertDictionary(t: Table, pred: nat, foll: Byte)
    requires Dictionary(t) && |t.order| < TABSIZE && Used(t, pred) && Absent(t, pred, foll)
    ensures Dictionary(Insert(t, pred, foll))
  {
    var s, t' := SlotFor(t, pred, foll), Insert(t, pred, foll);
    InsertChained(t, pred, foll);
    GrownRooted(t, t', s, pred, foll);
    GrownDistinct(t, t', s, pred, foll);
  }

  /** `unhash` finds every entry at its own slot. */
  lemma FindOwn(t: Table, i: nat)
    requires Dictionary(t) && Used(t, i)
    ensures Find(t, t.slots[i].predecessor, t.slots[i].follower) == i
  {
    var p, f := t.slots[i].predecessor, t.slots[i].follower;
    FindExact(t, p, f);
    assert Holds(t, i, p, f) && Distinguished(t, i, Find(t, p, f));
  }

  // ----- init_tab -----

  /** The table after `memset`. */
  function EmptyTable(): (t: Table)
    ensures Seeding(t) && t.order == []
    ensures |t.slots| == TABSIZE && forall i :: 0 <= i < TABSIZE ==> t.slots[i] == BLANK
  {
    hide H;
    Table(seq(TABSIZE, i => BLANK), [], seq(TABSIZE, i => 0), seq(TABSIZE, i => 0))
  }

  /** A table in the middle of `init_tab`'s loop: the single bytes entered so
      far, in order. The first goes to slot 2048 and the second to slot 0. */
  ghost predicate Seeding(t: Table) {
    && Chained(t) && |t.order| <= 256 && Singles(t, |t.order|)
    && (|t.order| == 1 ==> Used(t, 2048))
    && (|t.order| >= 2 ==> Used(t, 0))
  }

  lemma SeedingStep(t: Table)
    requires Seeding(t) && |t.order| < 256
    ensures LinkSafe(t, NO_PRED, |t.order|)
    ensures Seeding(Insert(t, NO_PRED, |t.order|))
  {
    hide H, Insert, SlotAt, Threaded, Hashed;
    var n := |t.order|;
    HashValues();
    if n < 2 {
      forall i | Used(t, i) ensures n == 1 && i == 2048 {
        assert 0 <= t.rank[i] < n;
        assert t.rank[2048] == 0;
      }
    }
    InsertChained(t, NO_PRED, n);
    var t' := Insert(t, NO_PRED, n);
    forall k | 0 <= k <= n ensures Holds(t', t'.order[k], NO_PRED, k) {
      if k < n { assert Holds(t, t.order[k], NO_PRED, k); }
    }
  }

  /** The rest of `init_tab`'s loop. */
  function Seed(t: Table): (t': Table)
    requires Seeding(t)
    ensures Seeding(t') && |t'.order| == 256
    decreases 256 - |t.order|
  {
    hide H, Insert, Chained, Singles;
    if |t.order| == 256 then t else
      SeedingStep(t);
      Seed(Insert(t, NO_PRED, |t.order|))
  }

  lemma SeededDictionary(t: Table)
    requires Seeding(t) && |t.order| == 256
    ensures Dictionary(t)
  {
    hide H, Threaded, Hashed;
    forall i, j ensures Distinguished(t, i, j) {
      if Used(t, i) && Used(t, j) {
        assert Holds(t, t.order[t.rank[i]], NO_PRED, t.rank[i]);
        assert Holds(t, t.order[t.rank[j]], NO_PRED, t.rank[j]);
      }
    }
  }

  /** The table `init_tab` leaves behind. */
  function Start(): (t: Table)
    ensures Dictionary(t) && |t.order| == 256
  {
    hide H, Seed, EmptyTable, Seeding, Dictionary;
    SeededDictionary(Seed(EmptyTable()));
    Seed(EmptyTable())
  }
}
