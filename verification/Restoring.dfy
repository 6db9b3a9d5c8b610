/** What loading a file gives back, said against what was saved: every record
    keeps its contents except that links are cleared and points and shots do
    not exceed their maxima (util/ed/editor4.c, editor3.c). */
module Restoring {
  import opened Bytes
  import opened Records
  import opened Trees

  function Least(a: Short, b: Short): Short { if a < b then a else b }

  predicate Cleared(links: seq<Byte>) { forall i :: 0 <= i < |links| ==> links[i] == 0 }

  predicate ObjRecRestored(saved: ObjRec, loaded: ObjRec) {
    && loaded.rest == saved.rest
    && loaded.shotsmax == saved.shotsmax && loaded.shotscur == Least(saved.shotscur, saved.shotsmax)
    && loaded.permt == saved.permt && loaded.perm2 == saved.perm2
    && |loaded.links| == |saved.links| && Cleared(loaded.links)
  }

  predicate CrtRecRestored(saved: CrtRec, loaded: CrtRec) {
    && loaded.rest == saved.rest
    && loaded.hpmax == saved.hpmax && loaded.hpcur == Least(saved.hpcur, saved.hpmax)
    && loaded.mpmax == saved.mpmax && loaded.mpcur == Least(saved.mpcur, saved.mpmax)
    && loaded.permt == saved.permt
    && |loaded.links| == |saved.links| && Cleared(loaded.links)
  }

  /** The object with its contents; of a permanent-only saving, its permanent contents. */
  predicate ObjRestored(saved: Object, loaded: Object, permOnly: bool)
    decreases saved, 1
  {
    ObjRecRestored(saved.rec, loaded.rec) && AllRestored(saved.contents, loaded.contents, permOnly)
  }

  predicate AllRestored(saved: seq<Object>, loaded: seq<Object>, permOnly: bool)
    decreases saved, 0
  {
    if saved == [] then loaded == []
    else if permOnly && !saved[0].rec.permt && !saved[0].rec.perm2 then AllRestored(saved[1..], loaded, permOnly)
    else loaded != [] && ObjRestored(saved[0], loaded[0], permOnly) && AllRestored(saved[1..], loaded[1..], permOnly)
  }

  predicate CrtRestored(saved: Creature, loaded: Creature, permOnly: bool) {
    CrtRecRestored(saved.rec, loaded.rec) && AllRestored(saved.inventory, loaded.inventory, permOnly)
  }

  // ----- the trees read are restored -----

  lemma {:induction false} PrunedRestored(o: Object, permOnly: bool)
    requires Storable(o)
    ensures ObjRestored(o, Pruned(o, permOnly), permOnly)
    decreases o, 1
  {
    AllPrunedRestored(o.contents, permOnly);
  }

  lemma {:induction false} AllPrunedRestored(os: seq<Object>, permOnly: bool)
    requires StorableAll(os)
    ensures AllRestored(os, PrunedAll(os, permOnly), permOnly)
    decreases os, 0
  {
    hide ObjRestored, Pruned;
    if os != [] {
      AllPrunedRestored(os[1..], permOnly);
      PrunedRestored(os[0], permOnly);
      if Kept(os[0], permOnly) {
        assert PrunedAll(os, permOnly)[1..] == PrunedAll(os[1..], permOnly);
      } else {
        assert PrunedAll(os, permOnly) == PrunedAll(os[1..], permOnly);
      }
    }
  }

  /** An object written and read again. */
  lemma ObjComesBack(o: Object, permOnly: bool, tail: seq<Byte>)
    requires Storable(o)
    ensures var r := ReadObj(WriteObj(o, permOnly) + tail);
      r.Read? && r.size == |WriteObj(o, permOnly)| && ObjRestored(o, r.value, permOnly)
  {
    hide ReadObj, WriteObj, ObjRestored, Pruned;
    ObjRoundTrip(o, permOnly, tail);
    PrunedRestored(o, permOnly);
  }

  /** A creature written and read again. */
  lemma CrtComesBack(c: Creature, permOnly: bool, tail: seq<Byte>)
    requires StorableCrt(c)
    ensures var r := ReadCrt(WriteCrt(c, permOnly) + tail);
      r.Read? && r.size == |WriteCrt(c, permOnly)| && CrtRestored(c, r.value, permOnly)
  {
    hide ReadCrt, WriteCrt, CrtRestored;
    CrtRoundTrip(c, permOnly, tail);
    PrunedCrtRestored(c, permOnly);
  }

  lemma PrunedCrtRestored(c: Creature, permOnly: bool)
    requires StorableCrt(c)
    ensures CrtRestored(c, PrunedCrt(c, permOnly), permOnly)
  {
    hide AllRestored, PrunedAll;
    AllPrunedRestored(c.inventory, permOnly);
  }

  // ----- path by path -----

  datatype ObjOption = NoObject | TheObject(o: Object)

  /** The object at a path: the position among its neighbours on each level. */
  function ObjectAt(os: seq<Object>, path: seq<nat>): ObjOption {
    if path == [] || path[0] >= |os| then NoObject
    else if |path| == 1 then TheObject(os[path[0]])
    else ObjectAt(os[path[0]].contents, path[1..])
  }

  lemma {:induction false} NthRestored(saved: seq<Object>, loaded: seq<Object>)
    requires AllRestored(saved, loaded, false)
    ensures |saved| == |loaded| && forall i :: 0 <= i < |saved| ==> ObjRestored(saved[i], loaded[i], false)
    decreases |saved|
  {
    hide ObjRestored;
    if saved != [] {
      NthRestored(saved[1..], loaded[1..]);
      assert forall i :: 0 < i < |saved| ==> saved[i] == saved[1..][i - 1] && loaded[i] == loaded[1..][i - 1];
    }
  }

  /** Saved whole, a tree comes back with an object at exactly the same paths,
      each of them restored. */
  lemma {:induction false} PathsRestored(saved: seq<Object>, loaded: seq<Object>, path: seq<nat>)
    requires AllRestored(saved, loaded, false)
    ensures var a, b := ObjectAt(saved, path), ObjectAt(loaded, path);
      && (a.TheObject? <==> b.TheObject?)
      && (a.TheObject? ==> ObjRecRestored(a.o.rec, b.o.rec) && |a.o.contents| == |b.o.contents|)
    decreases |path|
  {
    hide ObjRecRestored;
    NthRestored(saved, loaded);
    if path != [] && path[0] < |saved| {
      var i := path[0];
      assert ObjRestored(saved[i], loaded[i], false);
      NthRestored(saved[i].contents, loaded[i].contents);
      if |path| > 1 { PathsRestored(saved[i].contents, loaded[i].contents, path[1..]); }
    }
  }
}
