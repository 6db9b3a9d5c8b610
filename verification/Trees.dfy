/** Objects with their contents and creatures with their inventories as byte
    images: util/ed/editor4.c, with the counting routines of editor3.c. */
module Trees {
  import opened Bytes
  import opened Records

  /** The linked tags of `first_obj` appear as the sequence they spell. */
  datatype Object = Object(rec: ObjRec, contents: seq<Object>)
  datatype Creature = Creature(rec: CrtRec, inventory: seq<Object>)

  /** Records of the right size, and child counts that a C `int` can hold. */
  predicate Storable(o: Object) {
    o.rec.Sized() && StorableAll(o.contents)
  }

  predicate StorableAll(os: seq<Object>) {
    |os| < 0x8000_0000 && forall i :: 0 <= i < |os| ==> Storable(os[i])
  }

  predicate StorableCrt(c: Creature) {
    c.rec.Sized() && StorableAll(c.inventory)
  }

  predicate Kept(o: Object, permOnly: bool) {
    !permOnly || o.rec.permt || o.rec.perm2
  }

  function CountKept(os: seq<Object>, permOnly: bool): (n: nat)
    ensures n <= |os|
  {
    if os == [] then 0 else (if Kept(os[0], permOnly) then 1 else 0) + CountKept(os[1..], permOnly)
  }

  // ----- what is written -----

  function WriteObj(o: Object, permOnly: bool): seq<Byte>
    requires Storable(o)
    decreases o, 1
  {
    assert StorableAll(o.contents);
    ObjImage(o.rec) + IntBytes(CountKept(o.contents, permOnly)) + WriteList(o.contents, permOnly)
  }

  function WriteList(os: seq<Object>, permOnly: bool): seq<Byte>
    requires StorableAll(os)
    decreases os, 0
  {
    if os == [] then []
    else (if Kept(os[0], permOnly) then WriteObj(os[0], permOnly) else []) + WriteList(os[1..], permOnly)
  }

  function WriteCrt(c: Creature, permOnly: bool): seq<Byte>
    requires StorableCrt(c)
  {
    CrtImage(c.rec) + IntBytes(CountKept(c.inventory, permOnly)) + WriteList(c.inventory, permOnly)
  }

  // ----- what comes back -----

  /** The tree without the descendants that are not kept, each record as reading leaves it. */
  function Pruned(o: Object, permOnly: bool): Object
    decreases o, 1
  {
    Object(LoadedObj(o.rec), PrunedAll(o.contents, permOnly))
  }

  function PrunedAll(os: seq<Object>, permOnly: bool): seq<Object>
    decreases os, 0
  {
    if os == [] then []
    else (if Kept(os[0], permOnly) then [Pruned(os[0], permOnly)] else []) + PrunedAll(os[1..], permOnly)
  }

  function PrunedCrt(c: Creature, permOnly: bool): Creature {
    Creature(LoadedCrt(c.rec), PrunedAll(c.inventory, permOnly))
  }

  /** A value read from the front of a buffer and the bytes it took, or a
      reading that runs past the buffer's end. */
  datatype Reading<T> = Read(value: T, size: nat) | PastEnd

  function Count(n: Int32): nat { if n > 0 then n else 0 }

  function ReadObj(s: seq<Byte>): (r: Reading<Object>)
    ensures r.Read? ==> OBJ_SIZE + 4 <= r.size <= |s|
    decreases |s|, 0, 0
  {
    if |s| < OBJ_SIZE + 4 then PastEnd else
      match ReadList(s[OBJ_SIZE + 4..], Count(IntAt(s, OBJ_SIZE)))
      case Read(os, n) => Read(Object(LoadedObj(ObjFrom(s[..OBJ_SIZE])), os), OBJ_SIZE + 4 + n)
      case PastEnd => PastEnd
  }

  function ReadList(s: seq<Byte>, k: nat): (r: Reading<seq<Object>>)
    ensures r.Read? ==> r.size <= |s|
    decreases |s|, 1, k
  {
    if k == 0 then Read([], 0) else
      match ReadObj(s)
      case Read(o, n) =>
        (match ReadList(s[n..], k - 1)
         case Read(os, m) => Read([o] + os, n + m)
         case PastEnd => PastEnd)
      case PastEnd => PastEnd
  }

  function ReadCrt(s: seq<Byte>): (r: Reading<Creature>)
    ensures r.Read? ==> r.size <= |s|
  {
    if |s| < CRT_SIZE + 4 then PastEnd else
      match ReadList(s[CRT_SIZE + 4..], Count(IntAt(s, CRT_SIZE)))
      case Read(os, n) => Read(Creature(LoadedCrt(CrtFrom(s[..CRT_SIZE])), os), CRT_SIZE + 4 + n)
      case PastEnd => PastEnd
  }

  // ----- the round trips -----

  /** Reading back what was written gives the pruned tree and the same byte count. */
  lemma {:induction false} ObjRoundTrip(o: Object, permOnly: bool, tail: seq<Byte>)
    requires Storable(o)
    ensures ReadObj(WriteObj(o, permOnly) + tail) == Read(Pruned(o, permOnly), |WriteObj(o, permOnly)|)
    decreases o, 1
  {
    hide WriteList, ReadList, PrunedAll, ObjImage, IntBytes, IntAt, LoadedObj;
    var n := CountKept(o.contents, permOnly);
    var body := WriteList(o.contents, permOnly);
    var s := WriteObj(o, permOnly) + tail;
    assert s == ObjImage(o.rec) + (IntBytes(n) + (body + tail));
    assert s[..OBJ_SIZE] == ObjImage(o.rec);
    assert s[OBJ_SIZE..OBJ_SIZE + 4] == IntBytes(n);
    assert s[OBJ_SIZE + 4..] == body + tail;
    ObjImageRoundTrip(o.rec);
    IntRoundTrip(n, s, OBJ_SIZE);
    ListRoundTrip(o.contents, permOnly, tail);
  }

  lemma ReadNone(s: seq<Byte>)
    ensures ReadList(s, 0) == Read([], 0)
  {
  }

  lemma ReadListCons(w: seq<Byte>, s: seq<Byte>, k: nat)
    requires ReadObj(w + s).Read? && ReadObj(w + s).size == |w|
    requires ReadList(s, k).Read?
    ensures ReadList(w + s, k + 1)
         == Read([ReadObj(w + s).value] + ReadList(s, k).value, |w| + ReadList(s, k).size)
  {
    hide ReadObj;
    assert (w + s)[|w|..] == s;
  }

  lemma {:induction false} ListRoundTrip(os: seq<Object>, permOnly: bool, tail: seq<Byte>)
    requires StorableAll(os)
    ensures ReadList(WriteList(os, permOnly) + tail, CountKept(os, permOnly))
         == Read(PrunedAll(os, permOnly), |WriteList(os, permOnly)|)
    decreases os, 0
  {
    hide WriteObj, ReadObj, ReadList, Pruned, Storable;
    if os == [] {
      ReadNone(tail);
      assert WriteList(os, permOnly) + tail == tail;
    } else {
      var rest := WriteList(os[1..], permOnly);
      ListRoundTrip(os[1..], permOnly, tail);
      if Kept(os[0], permOnly) {
        var w := WriteObj(os[0], permOnly);
        ObjRoundTrip(os[0], permOnly, rest + tail);
        ReadListCons(w, rest + tail, CountKept(os[1..], permOnly));
        assert WriteList(os, permOnly) + tail == w + (rest + tail);
      } else {
        assert WriteList(os, permOnly) == rest;
        assert PrunedAll(os, permOnly) == PrunedAll(os[1..], permOnly);
      }
    }
  }

  lemma CrtRoundTrip(c: Creature, permOnly: bool, tail: seq<Byte>)
    requires StorableCrt(c)
    ensures ReadCrt(WriteCrt(c, permOnly) + tail) == Read(PrunedCrt(c, permOnly), |WriteCrt(c, permOnly)|)
  {
    hide WriteList, ReadList, PrunedAll, CrtImage, IntBytes, IntAt, LoadedCrt;
    var n := CountKept(c.inventory, permOnly);
    var body := WriteList(c.inventory, permOnly);
    var s := WriteCrt(c, permOnly) + tail;
    assert s == CrtImage(c.rec) + (IntBytes(n) + (body + tail));
    assert s[..CRT_SIZE] == CrtImage(c.rec);
    assert s[CRT_SIZE..CRT_SIZE + 4] == IntBytes(n);
    assert s[CRT_SIZE + 4..] == body + tail;
    CrtImageRoundTrip(c.rec);
    IntRoundTrip(n, s, CRT_SIZE);
    ListRoundTrip(c.inventory, permOnly, tail);
  }

  // ----- the routines -----

  /** A buffer with w laid over it from offset k on. */
  function Put(s: seq<Byte>, k: nat, w: seq<Byte>): (r: seq<Byte>)
    requires k + |w| <= |s|
    ensures |r| == |s|
  {
    s[..k] + w + s[k + |w|..]
  }

  lemma PutPut(s: seq<Byte>, k: nat, v: seq<Byte>, w: seq<Byte>)
    requires k + |v| + |w| <= |s|
    ensures Put(Put(s, k, v), k + |v|, w) == Put(s, k, v + w)
  {
  }

  lemma PutNothing(s: seq<Byte>, k: nat)
    requires k <= |s|
    ensures Put(s, k, []) == s
  {
  }

  method MemCpy(buf: array<Byte>, k: nat, w: seq<Byte>)
    requires k + |w| <= buf.Length
    modifies buf
    ensures buf[..] == Put(old(buf[..]), k, w)
  {
    forall i | 0 <= i < |w| {
      buf[k + i] := w[i];
    }
  }

  method CountObj(os: seq<Object>, permOnly: bool) returns (total: nat)
    ensures total == CountKept(os, permOnly)
  {
    total := 0;
    var i := 0;
    while i < |os|
      invariant i <= |os|
      invariant CountKept(os, permOnly) == total + CountKept(os[i..], permOnly)
    {
      assert os[i..][1..] == os[i + 1..];
      if Kept(os[i], permOnly) {
        total := total + 1;
      }
      i := i + 1;
    }
  }

  lemma ListStep(os: seq<Object>, i: nat, permOnly: bool)
    requires StorableAll(os) && i < |os|
    ensures StorableAll(os[i..]) && StorableAll(os[i + 1..]) && Storable(os[i])
    ensures WriteList(os[i..], permOnly)
         == (if Kept(os[i], permOnly) then WriteObj(os[i], permOnly) else []) + WriteList(os[i + 1..], permOnly)
    ensures CountKept(os[i..], permOnly)
         == (if Kept(os[i], permOnly) then 1 else 0) + CountKept(os[i + 1..], permOnly)
  {
    hide WriteObj, Storable;
    assert os[i..][1..] == os[i + 1..];
  }

  lemma ListEnds(os: seq<Object>, permOnly: bool)
    requires StorableAll(os)
    ensures os[0..] == os && os[|os|..] == []
    ensures WriteList([], permOnly) == [] && CountKept([], permOnly) == 0
  {
  }

  lemma ReadListStep(s: seq<Byte>, k: nat)
    requires k > 0 && ReadList(s, k).Read?
    ensures ReadObj(s).Read?
    ensures var r := ReadList(s[ReadObj(s).size..], k - 1);
      r.Read? && ReadList(s, k) == Read([ReadObj(s).value] + r.value, ReadObj(s).size + r.size)
  {
    hide ReadObj;
  }

  /** The loop over the tags that object and creature writing share. */
  method WriteTags(buf: array<Byte>, k: nat, os: seq<Object>, permOnly: bool) returns (n: nat, cnt2: nat, error: bool)
    requires StorableAll(os) && k + |WriteList(os, permOnly)| <= buf.Length
    modifies buf
    ensures buf[..] == Put(old(buf[..]), k, WriteList(os, permOnly))
    ensures n == |WriteList(os, permOnly)| && cnt2 == CountKept(os, permOnly) && !error
    decreases os, 0
  {
    hide WriteObj, Storable, WriteList, CountKept, Put;
    n, cnt2, error := 0, 0, false;
    ghost var done: seq<Byte> := [];
    ListEnds(os, permOnly);
    PutNothing(buf[..], k);
    var i := 0;
    while i < |os|
      invariant i <= |os| && n == |done| && !error && StorableAll(os[i..])
      invariant CountKept(os, permOnly) == cnt2 + CountKept(os[i..], permOnly)
      invariant WriteList(os, permOnly) == done + WriteList(os[i..], permOnly)
      invariant buf[..] == Put(old(buf[..]), k, done)
    {
      ListStep(os, i, permOnly);
      if Kept(os[i], permOnly) {
        ghost var w := WriteObj(os[i], permOnly);
        var m := WriteObjToMem(buf, k + n, os[i], permOnly);
        if m < 0 {
          error := true;
        } else {
          n := n + m;
        }
        PutPut(old(buf[..]), k, done, w);
        done := done + w;
        cnt2 := cnt2 + 1;
      }
      i := i + 1;
    }
    assert WriteList(os, permOnly) == done;
  }

  /** Never takes its error return. */
  method WriteObjToMem(buf: array<Byte>, k: nat, o: Object, permOnly: bool) returns (n: int)
    requires Storable(o) && k + |WriteObj(o, permOnly)| <= buf.Length
    modifies buf
    ensures buf[..] == Put(old(buf[..]), k, WriteObj(o, permOnly))
    ensures n == |WriteObj(o, permOnly)|
    decreases o, 1
  {
    hide WriteList, ObjImage, IntBytes, Put;
    assert StorableAll(o.contents);
    MemCpy(buf, k, ObjImage(o.rec));
    var cnt := CountObj(o.contents, permOnly);
    MemCpy(buf, k + OBJ_SIZE, IntBytes(cnt));
    PutPut(old(buf[..]), k, ObjImage(o.rec), IntBytes(cnt));
    var m, cnt2, error := 0, 0, false;
    if cnt > 0 {
      m, cnt2, error := WriteTags(buf, k + OBJ_SIZE + 4, o.contents, permOnly);
      PutPut(old(buf[..]), k, ObjImage(o.rec) + IntBytes(cnt), WriteList(o.contents, permOnly));
    } else {
      NothingKept(o.contents, permOnly);
      assert WriteObj(o, permOnly) == ObjImage(o.rec) + IntBytes(cnt);
    }
    n := if cnt != cnt2 || error then -1 else OBJ_SIZE + 4 + m;
  }

  lemma {:induction false} NothingKept(os: seq<Object>, permOnly: bool)
    requires StorableAll(os) && CountKept(os, permOnly) == 0
    ensures WriteList(os, permOnly) == []
  {
    if os != [] { NothingKept(os[1..], permOnly); }
  }

  method WriteCrtToMem(buf: array<Byte>, k: nat, c: Creature, permOnly: bool) returns (n: int)
    requires StorableCrt(c) && k + |WriteCrt(c, permOnly)| <= buf.Length
    modifies buf
    ensures buf[..] == Put(old(buf[..]), k, WriteCrt(c, permOnly))
    ensures n == |WriteCrt(c, permOnly)|
  {
    hide WriteList, CrtImage, IntBytes, Put;
    MemCpy(buf, k, CrtImage(c.rec));
    var cnt := CountObj(c.inventory, permOnly);
    MemCpy(buf, k + CRT_SIZE, IntBytes(cnt));
    PutPut(old(buf[..]), k, CrtImage(c.rec), IntBytes(cnt));
    var m, cnt2, error := 0, 0, false;
    if cnt > 0 {
      m, cnt2, error := WriteTags(buf, k + CRT_SIZE + 4, c.inventory, permOnly);
      PutPut(old(buf[..]), k, CrtImage(c.rec) + IntBytes(cnt), WriteList(c.inventory, permOnly));
    } else {
      NothingKept(c.inventory, permOnly);
      assert WriteCrt(c, permOnly) == CrtImage(c.rec) + IntBytes(cnt);
    }
    n := if cnt != cnt2 || error then -1 else CRT_SIZE + 4 + m;
  }

  /** The counting-down loop that object and creature reading share; the caller
      vouches that the images lie within the buffer. */
  method ReadTags(buf: array<Byte>, k: nat, count: nat) returns (n: nat, os: seq<Object>, error: bool)
    requires k <= buf.Length && ReadList(buf[k..], count).Read?
    ensures ReadList(buf[k..], count) == Read(os, n) && !error
    decreases buf.Length - k, 1
  {
    hide ReadObj, ReadList;
    n, os, error := 0, [], false;
    var cnt := count;
    ghost var goal := ReadList(buf[k..], count);
    assert os + goal.value == goal.value;
    while cnt > 0
      invariant k + n <= buf.Length && !error
      invariant ReadList(buf[k + n..], cnt).Read?
      invariant goal == Read(os + ReadList(buf[k + n..], cnt).value, n + ReadList(buf[k + n..], cnt).size)
    {
      ReadListStep(buf[k + n..], cnt);
      ghost var rest := ReadList(buf[k + n..], cnt).value;
      cnt := cnt - 1;
      var m, o := ReadObjFromMem(buf, k + n);
      assert buf[k + n..][m..] == buf[k + n + m..];
      if m < 0 {
        error := true;
      } else {
        n := n + m;
      }
      assert os + rest == os + [o] + rest[1..];
      os := os + [o];
    }
    ReadNone(buf[k + n..]);
    assert os + [] == os;
  }

  method ReadObjFromMem(buf: array<Byte>, k: nat) returns (n: int, o: Object)
    requires k <= buf.Length && ReadObj(buf[k..]).Read?
    ensures n >= 0 && ReadObj(buf[k..]) == Read(o, n)
    decreases buf.Length - k, 0
  {
    hide ReadList, ObjFrom, IntAt;
    ghost var s := buf[k..];
    assert s[..OBJ_SIZE] == buf[k..k + OBJ_SIZE];
    assert s[OBJ_SIZE + 4..] == buf[k + OBJ_SIZE + 4..];
    var rec := ObjFrom(buf[k..k + OBJ_SIZE]);
    rec := rec.(links := Zeros(OBJ_LINKS));
    if rec.shotscur > rec.shotsmax {
      rec := rec.(shotscur := rec.shotsmax);
    }
    var cnt := IntAt(buf[k..], OBJ_SIZE);
    var m, os, error := ReadTags(buf, k + OBJ_SIZE + 4, Count(cnt));
    o := Object(rec, os);
    n := if error then -1 else OBJ_SIZE + 4 + m;
  }

  method ReadCrtFromMem(buf: array<Byte>) returns (n: int, c: Creature)
    requires ReadCrt(buf[..]).Read?
    ensures n >= 0 && ReadCrt(buf[..]) == Read(c, n)
  {
    hide ReadList, CrtFrom, IntAt;
    ghost var s := buf[..];
    assert s[..CRT_SIZE] == buf[..CRT_SIZE];
    assert s[CRT_SIZE + 4..] == buf[CRT_SIZE + 4..];
    var rec := CrtFrom(buf[..CRT_SIZE]);
    rec := rec.(links := Zeros(CRT_LINKS));
    if rec.mpcur > rec.mpmax {
      rec := rec.(mpcur := rec.mpmax);
    }
    if rec.hpcur > rec.hpmax {
      rec := rec.(hpcur := rec.hpmax);
    }
    var cnt := IntAt(buf[..], CRT_SIZE);
    var m, os, error := ReadTags(buf, CRT_SIZE + 4, Count(cnt));
    c := Creature(rec, os);
    n := if error then -1 else CRT_SIZE + 4 + m;
  }
}
