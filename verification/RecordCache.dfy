/** The least-recently-used record cache of util/ed/files2.c (`load_obj`, and
    `load_crt`, which is the same routine over another array). The table size
    and the queue limit, OMAX and OQMAX, are defined in a header that is not
    part of this model and are parameters here. */
module RecordCache {
  import opened TagQueue

  datatype Option<T> = None | Some(value: T)

  // ----- the cache as a value -----

  /** The cached indices, most recent first, and the copies held of them. */
  datatype Lru<R> = Lru(order: seq<int>, held: map<int, R>)

  function IndexOf(s: seq<int>, x: int): (k: nat)
    requires x in s
    ensures k < |s| && s[k] == x
  {
    if s[0] == x then 0 else 1 + IndexOf(s[1..], x)
  }

  /** x moved, or put, to the front. */
  function ToFront(s: seq<int>, x: int): seq<int> {
    [x] + if x in s then Without(s, IndexOf(s, x)) else s
  }

  function Capped(s: seq<int>, max: nat): seq<int> {
    if |s| <= max then s else s[..max]
  }

  function Restrict<R>(m: map<int, R>, s: seq<int>): map<int, R> {
    map i | i in m && i in s :: m[i]
  }

  /** `load_obj` on a table of `bound` records and a queue limit of `max`. */
  function Load<R>(l: Lru<R>, bound: nat, max: nat, disk: map<int, R>, index: int): (Lru<R>, Option<R>) {
    if !(0 <= index < bound) then (l, None)
    else if index in l.held then (l.(order := ToFront(l.order, index)), Some(l.held[index]))
    else if index !in disk then (l, None)
    else
      var order := Capped(ToFront(l.order, index), max);
      (Lru(order, Restrict(l.held[index := disk[index]], order)), Some(disk[index]))
  }

  function LoadAll<R>(l: Lru<R>, bound: nat, max: nat, disk: map<int, R>, requests: seq<int>): (Lru<R>, seq<Option<R>>)
    decreases |requests|
  {
    if requests == [] then (l, []) else
      var n := |requests| - 1;
      var (l', rs) := LoadAll(l, bound, max, disk, requests[..n]);
      var (l'', r) := Load(l', bound, max, disk, requests[n]);
      (l'', rs + [r])
  }

  // ----- what it is equivalent to -----

  /** A load with no cache at all. */
  function Uncached<R>(bound: nat, disk: map<int, R>, index: int): Option<R> {
    if 0 <= index < bound && index in disk then Some(disk[index]) else None
  }

  /** The distinct indices loaded so far, most recent first. */
  function Recent<R>(bound: nat, disk: map<int, R>, requests: seq<int>): (s: seq<int>)
    ensures NoRepeats(s)
    decreases |requests|
  {
    if requests == [] then [] else
      var n := |requests| - 1;
      var s := Recent(bound, disk, requests[..n]);
      if Uncached(bound, disk, requests[n]).None? then s else
        ToFrontDistinct(s, requests[n]);
        ToFront(s, requests[n])
  }

  lemma WithoutDistinct(s: seq<int>, k: nat)
    requires NoRepeats(s) && k < |s|
    ensures NoRepeats(Without(s, k)) && s[k] !in Without(s, k)
  {
    var t := Without(s, k);
    assert forall i :: 0 <= i < |t| ==> t[i] == s[if i < k then i else i + 1];
  }

  lemma ToFrontDistinct(s: seq<int>, x: int)
    requires NoRepeats(s)
    ensures NoRepeats(ToFront(s, x))
  {
    if x in s { WithoutDistinct(s, IndexOf(s, x)); }
  }

  /** Capping before or after a move to the front comes to the same. */
  lemma CappedToFront(s: seq<int>, x: int, max: nat)
    requires NoRepeats(s) && max > 0
    ensures Capped(ToFront(Capped(s, max), x), max) == Capped(ToFront(s, x), max)
  {
    if |s| > max {
      var c := Capped(s, max);
      if x in s {
        var k := IndexOf(s, x);
        if k < max {
          assert c[k] == x;
          assert IndexOf(c, x) == k;
        } else {
          assert x !in c;
        }
      }
    }
  }

  /** The cache is a window on the disk: exactly the `max` most recently loaded
      records are held, and each copy is the disk's. */
  ghost predicate Faithful<R>(l: Lru<R>, bound: nat, max: nat, disk: map<int, R>, requests: seq<int>) {
    && l.order == Capped(Recent(bound, disk, requests), max)
    && (forall i :: i in l.held <==> i in l.order)
    && (forall i :: i in l.held ==> 0 <= i < bound && i in disk && l.held[i] == disk[i])
  }

  lemma {:induction false} Transparent<R>(bound: nat, max: nat, disk: map<int, R>, requests: seq<int>)
    ensures var (l, rs) := LoadAll(Lru([], map[]), bound, max, disk, requests);
      && Faithful(l, bound, max, disk, requests)
      && |l.order| <= max && NoRepeats(l.order)
      && |rs| == |requests|
    ensures forall k :: 0 <= k < |requests| ==>
      LoadAll(Lru([], map[]), bound, max, disk, requests).1[k] == Uncached(bound, disk, requests[k])
    decreases |requests|
  {
    hide Load, Recent, Capped, Uncached;
    if requests == [] {
      NothingLoaded(bound, max, disk);
    } else {
      var n := |requests| - 1;
      Transparent(bound, max, disk, requests[..n]);
      var l := LoadAll(Lru([], map[]), bound, max, disk, requests[..n]).0;
      LoadFaithful(l, bound, max, disk, requests);
      CappedDistinct(Recent(bound, disk, requests), max);
    }
  }

  lemma NothingLoaded<R>(bound: nat, max: nat, disk: map<int, R>)
    ensures Capped(Recent(bound, disk, []), max) == []
  {
  }

  lemma CappedDistinct(s: seq<int>, max: nat)
    requires NoRepeats(s)
    ensures |Capped(s, max)| <= max && NoRepeats(Capped(s, max))
  {
  }

  lemma LoadFaithful<R>(l: Lru<R>, bound: nat, max: nat, disk: map<int, R>, requests: seq<int>)
    requires requests != []
    requires Faithful(l, bound, max, disk, requests[..|requests| - 1])
    ensures var index := requests[|requests| - 1];
      var (l', r) := Load(l, bound, max, disk, index);
      && Faithful(l', bound, max, disk, requests) && r == Uncached(bound, disk, index)
  {
    hide ToFront;
    var index := requests[|requests| - 1];
    var s := Recent(bound, disk, requests[..|requests| - 1]);
    if Uncached(bound, disk, index).Some? {
      if max == 0 {
        assert l.order == [];
      } else {
        CappedToFront(s, index, max);
        ToFrontHolds(l.order, index);
      }
    }
  }

  lemma ToFrontHolds(s: seq<int>, x: int)
    ensures forall i :: i in ToFront(s, x) <==> i == x || i in s
    ensures |ToFront(s, x)| == if x in s then |s| else |s| + 1
  {
    if x in s {
      var k := IndexOf(s, x);
      assert s == s[..k] + [x] + s[k + 1..];
    }
  }

  // ----- the program -----

  ghost function Indices(tags: seq<QTag>): (s: seq<int>)
    ensures |s| == |tags|
  {
    if tags == [] then [] else [tags[0].index] + Indices(tags[1..])
  }

  class Cache<R(0)> {
    const objs: array<Option<R>>
    const qobjs: array<QTag?>
    const queue: Queue
    const max: nat

    /** Each tag stands for the record it is the tag of, and each record held has one. */
    ghost predicate Valid()
      reads this, objs, qobjs, queue, queue.tags
    {
      && objs.Length == qobjs.Length
      && queue.Valid()
      && (forall t :: t in queue.tags ==> Tagged(t))
      && (forall i :: 0 <= i < objs.Length && objs[i].Some? ==>
            qobjs[i] != null && qobjs[i] in queue.tags && qobjs[i].index == i)
    }

    ghost predicate Tagged(qt: QTag)
      reads objs, qobjs
    {
      0 <= qt.index < objs.Length && qt.index < qobjs.Length && objs[qt.index].Some? && qobjs[qt.index] == qt
    }

    ghost function Held(): map<int, R>
      reads objs
    {
      map i | 0 <= i < objs.Length && objs[i].Some? :: objs[i].value
    }

    ghost function Abs(): Lru<R>
      reads this, objs, queue
    {
      Lru(Indices(queue.tags), Held())
    }

    constructor (bound: nat, limit: nat)
      ensures Valid() && Abs() == Lru([], map[]) && objs.Length == bound && max == limit
      ensures fresh(objs) && fresh(qobjs) && fresh(queue)
    {
      objs := new Option<R>[bound](_ => None);
      qobjs := new QTag?[bound](_ => null);
      queue := new Queue();
      max := limit;
    }

    /** A record that is held comes to the front of the queue. */
    method Hit(index: int)
      requires Valid() && 0 <= index < objs.Length && objs[index].Some?
      modifies queue, queue.tags
      ensures Valid() && Abs() == old(Abs()).(order := ToFront(old(Abs()).order, index))
      ensures forall t :: t in queue.tags ==> t in old(queue.tags)
    {
      hide Indices, ToFront, Without;
      ghost var tags := queue.tags;
      OneTagEach();
      ghost var k :| 0 <= k < |tags| && tags[k] == qobjs[index];
      MovedTags(tags, k);
      queue.Front(qobjs[index], k);
      assert forall t :: t in queue.tags <==> t in tags by { MovedSame(tags, k); }
    }

    /** Free the least recently used record. */
    method EvictOne()
      requires Valid() && queue.tags != []
      modifies objs, queue, queue.tags
      ensures Valid() && queue.tags == old(queue.tags)[..|old(queue.tags)| - 1]
      ensures Held() == old(Held()) - {old(queue.tags)[|old(queue.tags)| - 1].index}
    {
      hide Indices, NoRepeats;
      OneTagEach();
      ghost var before := queue.tags;
      var qt := queue.Pull();
      assert before == queue.tags + [qt];
      LastTag(queue.tags, qt);
      assert Tagged(qt);
      objs[qt.index] := None;
      assert queue.Valid();
      forall t | t in queue.tags ensures Tagged(t) {
        assert t in before && old(Tagged(t)) && t.index != qt.index;
      }
      forall i | 0 <= i < objs.Length && objs[i].Some?
        ensures qobjs[i] != null && qobjs[i] in queue.tags && qobjs[i].index == i
      {
        assert qobjs[i] in before && i != qt.index;
      }
      assert Held() == old(Held()) - {qt.index};
    }

    /** The eviction loop. */
    method Evict()
      requires Valid()
      modifies objs, queue, queue.tags
      ensures Valid() && forall t :: t in queue.tags ==> t in old(queue.tags)
      ensures Abs() == var order := Capped(old(Abs()).order, max); Lru(order, Restrict(old(Abs()).held, order))
    {
      hide Indices, NoRepeats, Restrict;
      ghost var tags, held := queue.tags, Held();
      HeldIsTagged();
      OneTagEach();
      while queue.size > max
        invariant Valid() && queue.size <= |tags| && queue.tags == tags[..queue.size]
        invariant queue.size >= max || queue.size == |tags|
        invariant Held() == Restrict(held, Indices(queue.tags))
        decreases queue.size
      {
        ghost var n := queue.size - 1;
        OneTagEach();
        assert tags[..n + 1] == tags[..n] + [tags[n]];
        LastTag(tags[..n], tags[n]);
        RestrictStep(held, Indices(tags[..n]), tags[n].index);
        EvictOne();
      }
      IndicesSlice(tags, queue.size);
    }

    method LoadObj(index: int, disk: map<int, R>) returns (r: Option<R>)
      requires Valid()
      modifies objs, qobjs, queue, queue.tags
      ensures Valid() && fresh(set t | t in queue.tags && t !in old(queue.tags))
      ensures (Abs(), r) == Load(old(Abs()), objs.Length, max, disk, index)
    {
      hide Indices, NoRepeats, Restrict, ToFront;
      if index >= objs.Length || index < 0 {
        return None;
      }
      if objs[index].Some? {
        Hit(index);
        return objs[index];
      }
      if index !in disk {
        return None;
      }
      r := Some(disk[index]);
      Enter(index, disk[index]);
      Evict();
    }

    /** A record read from disk is copied in, with a tag of its own. */
    method Enter(index: int, record: R)
      requires Valid() && 0 <= index < objs.Length && objs[index].None?
      modifies objs, qobjs, queue, queue.tags
      ensures Valid() && fresh(set t | t in queue.tags && t !in old(queue.tags))
      ensures Abs() == Lru(ToFront(old(Abs()).order, index), old(Abs()).held[index := record])
    {
      hide NoRepeats, Indices;
      ghost var tags := queue.tags;
      var qt := new QTag(index);
      NewIndex(index);
      objs[index] := Some(record);
      qobjs[index] := qt;
      queue.Put(qt);
      IndicesAppend([qt], tags);
      IndicesOne(qt);
    }

    lemma NewIndex(index: int)
      requires Valid() && 0 <= index < objs.Length && objs[index].None?
      ensures index !in Indices(queue.tags)
      ensures forall t :: t in queue.tags ==> t.index != index
    {
      hide Indices, NoRepeats;
      forall k | 0 <= k < |queue.tags| ensures Indices(queue.tags)[k] != index {
        IndicesAt(queue.tags, k);
        assert Tagged(queue.tags[k]);
      }
      assert forall t :: t in queue.tags ==> Tagged(t);
    }

    lemma HeldIsTagged()
      requires Valid()
      ensures Held() == Restrict(Held(), Indices(queue.tags))
    {
      hide Indices;
      IndicesOf(queue.tags);
    }

    lemma OneTagEach()
      requires Valid()
      ensures NoRepeats(Indices(queue.tags))
    {
      hide Indices;
      forall i, j | 0 <= i < j < |queue.tags| ensures Indices(queue.tags)[i] != Indices(queue.tags)[j] {
        IndicesAt(queue.tags, i);
        IndicesAt(queue.tags, j);
        assert Tagged(queue.tags[i]) && Tagged(queue.tags[j]);
      }
    }
  }

  /** Loads one after the other through a new cache, whatever its limit: each
      result is what the disk alone would have given. */
  method LoadSequence<R(0)>(bound: nat, max: nat, disk: map<int, R>, requests: seq<int>) returns (results: seq<Option<R>>)
    ensures |results| == |requests|
    ensures forall k :: 0 <= k < |requests| ==> results[k] == Uncached(bound, disk, requests[k])
  {
    hide Load, Uncached;
    var cache := new Cache<R>(bound, max);
    results := [];
    for i := 0 to |requests|
      invariant cache.Valid() && cache.objs.Length == bound && cache.max == max
      invariant fresh(cache.objs) && fresh(cache.qobjs) && fresh(cache.queue) && fresh(cache.queue.tags)
      invariant (cache.Abs(), results) == LoadAll(Lru([], map[]), bound, max, disk, requests[..i])
    {
      var r := cache.LoadObj(requests[i], disk);
      results := results + [r];
      assert requests[..i + 1][..i] == requests[..i];
    }
    assert requests[..|requests|] == requests;
    Transparent(bound, max, disk, requests);
  }

  lemma MovedSame(tags: seq<QTag>, k: nat)
    requires k < |tags|
    ensures forall t :: t in [tags[k]] + Without(tags, k) <==> t in tags
  {
    assert tags == tags[..k] + [tags[k]] + tags[k + 1..];
  }

  lemma {:induction false} IndicesAppend(a: seq<QTag>, b: seq<QTag>)
    ensures Indices(a + b) == Indices(a) + Indices(b)
  {
    if a == [] {
      assert a + b == b;
    } else {
      assert (a + b)[1..] == a[1..] + b;
      IndicesAppend(a[1..], b);
    }
  }

  lemma IndicesOne(t: QTag)
    ensures Indices([t]) == [t.index]
  {
    assert [t][1..] == [];
  }

  lemma IndicesSlice(tags: seq<QTag>, k: nat)
    requires k <= |tags|
    ensures Indices(tags[..k]) == Indices(tags)[..k]
    ensures Indices(tags[k..]) == Indices(tags)[k..]
  {
    hide Indices;
    IndicesAppend(tags[..k], tags[k..]);
    assert tags == tags[..k] + tags[k..];
  }

  lemma IndicesAt(tags: seq<QTag>, k: nat)
    requires k < |tags|
    ensures Indices(tags)[k] == tags[k].index
  {
    IndicesSlice(tags, k);
  }

  lemma IndicesOf(tags: seq<QTag>)
    ensures forall t :: t in tags ==> t.index in Indices(tags)
  {
    hide Indices;
    forall t | t in tags ensures t.index in Indices(tags) {
      var k :| 0 <= k < |tags| && tags[k] == t;
      IndicesAt(tags, k);
    }
  }

  /** The index of the last tag occurs nowhere else in the queue. */
  lemma LastTag(tags: seq<QTag>, last: QTag)
    requires NoRepeats(Indices(tags + [last]))
    ensures Indices(tags + [last]) == Indices(tags) + [last.index]
    ensures last.index !in Indices(tags)
    ensures forall t :: t in tags ==> t.index in Indices(tags)
  {
    hide Indices;
    IndicesAppend(tags, [last]);
    IndicesOne(last);
    IndicesOf(tags);
    var s := Indices(tags + [last]);
    assert s[|tags|] == last.index && forall i :: 0 <= i < |tags| ==> s[i] == Indices(tags)[i];
  }

  lemma MovedTags(tags: seq<QTag>, k: nat)
    requires k < |tags| && NoRepeats(Indices(tags))
    ensures Indices([tags[k]] + Without(tags, k)) == ToFront(Indices(tags), tags[k].index)
  {
    hide Indices, IndexOf, NoRepeats;
    var s := Indices(tags);
    FoundAt(s, k);
    IndicesAt(tags, k);
    IndicesOne(tags[k]);
    IndicesAppend([tags[k]], Without(tags, k));
    IndicesAppend(tags[..k], tags[k + 1..]);
    IndicesSlice(tags, k);
    IndicesSlice(tags, k + 1);
  }

  lemma RestrictStep<R>(m: map<int, R>, s: seq<int>, x: int)
    requires x !in s
    ensures Restrict(m, s + [x]) - {x} == Restrict(m, s)
  {
  }

  lemma FoundAt(s: seq<int>, k: nat)
    requires k < |s| && NoRepeats(s)
    ensures IndexOf(s, s[k]) == k
  {
  }
  // ----- what recency means -----

  /** The position of the last request for an index, or -1. */
  function LastRequest(requests: seq<int>, x: int): (k: int)
    ensures -1 <= k < |requests| && (k >= 0 ==> requests[k] == x)
    ensures forall j :: k < j < |requests| ==> requests[j] != x
  {
    if requests == [] then -1 else
      var n := |requests| - 1;
      if requests[n] == x then n else LastRequest(requests[..n], x)
  }

  lemma LastAppend(requests: seq<int>, x: int, y: int)
    ensures LastRequest(requests + [x], y) == if y == x then |requests| else LastRequest(requests, y)
  {
    assert (requests + [x])[..|requests|] == requests;
  }

  predicate Later(s: seq<int>, requests: seq<int>, i: nat, j: nat)
    requires i < |s| && j < |s|
  {
    LastRequest(requests, s[i]) > LastRequest(requests, s[j])
  }

  predicate ByRecency(s: seq<int>, requests: seq<int>) {
    forall i, j {:trigger Later(s, requests, i, j)} :: 0 <= i < j < |s| ==> Later(s, requests, i, j)
  }

  /** `Recent` are the records there are among those requested, each once, the
      one requested last in front. */
  lemma {:induction false} RecentByRecency<R>(bound: nat, disk: map<int, R>, requests: seq<int>)
    ensures var s := Recent(bound, disk, requests);
      && (forall x :: x in s <==> x in requests && 0 <= x < bound && x in disk)
      && ByRecency(s, requests)
    decreases |requests|
  {
    hide ToFront, ByRecency, NoRepeats;
    if requests == [] {
      NoneByRecency();
    } else {
      var n := |requests| - 1;
      var s := Recent(bound, disk, requests[..n]);
      RecentByRecency(bound, disk, requests[..n]);
      assert requests == requests[..n] + [requests[n]];
      ToFrontHolds(s, requests[n]);
      if Uncached(bound, disk, requests[n]).Some? {
        FrontByRecency(s, requests[..n], requests[n]);
      } else {
        StillByRecency(s, requests[..n], requests[n]);
      }
    }
  }

  lemma NoneByRecency()
    ensures ByRecency([], [])
  {
  }

  lemma StillByRecency(s: seq<int>, before: seq<int>, x: int)
    requires ByRecency(s, before) && x !in s
    ensures ByRecency(s, before + [x])
  {
    hide LastRequest;
    forall i, j | 0 <= i < j < |s| ensures Later(s, before + [x], i, j) {
      assert Later(s, before, i, j);
      LastAppend(before, x, s[i]);
      LastAppend(before, x, s[j]);
    }
  }

  lemma FrontByRecency(s: seq<int>, before: seq<int>, x: int)
    requires ByRecency(s, before) && NoRepeats(s)
    ensures ByRecency(ToFront(s, x), before + [x])
  {
    var w := if x in s then Without(s, IndexOf(s, x)) else s;
    assert ToFront(s, x) == [x] + w;
    WithoutByRecency(s, before, x);
    StillByRecency(w, before, x);
    PutByRecency(w, before, x);
  }

  lemma WithoutByRecency(s: seq<int>, before: seq<int>, x: int)
    requires ByRecency(s, before) && NoRepeats(s)
    ensures var w := if x in s then Without(s, IndexOf(s, x)) else s; x !in w && ByRecency(w, before)
  {
    hide LastRequest;
    if x in s {
      var k := IndexOf(s, x);
      var w := Without(s, k);
      WithoutDistinct(s, k);
      forall i, j | 0 <= i < j < |w| ensures Later(w, before, i, j) {
        assert Later(s, before, if i < k then i else i + 1, if j < k then j else j + 1);
      }
    }
  }

  lemma PutByRecency(w: seq<int>, before: seq<int>, x: int)
    requires ByRecency(w, before + [x]) && x !in w
    ensures ByRecency([x] + w, before + [x])
  {
    hide LastRequest;
    var f := [x] + w;
    LastAppend(before, x, x);
    forall i, j | 0 <= i < j < |f| ensures Later(f, before + [x], i, j) {
      LastAppend(before, x, f[j]);
      assert f[j] == w[j - 1] && f[j] != x;
      if i > 0 { assert Later(w, before + [x], i - 1, j - 1); }
    }
  }

  /** After any loads the cache holds the most recent of them, as many as there is
      room for, in order. */
  lemma MostRecentHeld<R>(bound: nat, max: nat, disk: map<int, R>, requests: seq<int>)
    ensures var order, all := LoadAll(Lru([], map[]), bound, max, disk, requests).0.order, Recent(bound, disk, requests);
      && order <= all && |order| == (if |all| < max then |all| else max)
      && (forall x :: x in all <==> x in requests && 0 <= x < bound && x in disk)
      && ByRecency(all, requests)
  {
    hide Load, Recent;
    Transparent(bound, max, disk, requests);
    RecentByRecency(bound, disk, requests);
  }
}
