/** The doubly linked queue of util/ed/files2.c: newest tag at the head, oldest
    at the tail. */
module TagQueue {

  class QTag {
    const index: int
    var next: QTag?
    var prev: QTag?

    constructor (i: int)
      ensures index == i
    {
      index := i;
      next, prev := null, null;
    }
  }

  predicate NoRepeats<T(==)>(s: seq<T>) {
    forall i, j :: 0 <= i < j < |s| ==> s[i] != s[j]
  }

  /** s without its element k. */
  function Without<T>(s: seq<T>, k: nat): seq<T>
    requires k < |s|
  {
    s[..k] + s[k + 1..]
  }

  /** An element that is nowhere else, and what is left without it. */
  lemma Apart<T>(s: seq<T>, k: nat)
    requires k < |s| && NoRepeats(s)
    ensures forall i :: 0 <= i < |s| && i != k ==> s[i] != s[k]
    ensures NoRepeats(Without(s, k)) && |Without(s, k)| == |s| - 1
    ensures forall i :: 0 <= i < |s| - 1 ==> Without(s, k)[i] == s[if i < k then i else i + 1]
  {
    var t := Without(s, k);
    assert forall i :: 0 <= i < |t| ==> t[i] == s[if i < k then i else i + 1];
  }

  /** A tag points to its neighbours. */
  ghost predicate Linked(tags: seq<QTag>, i: nat)
    requires i < |tags|
    reads tags[i]
  {
    && tags[i].next == (if i + 1 < |tags| then tags[i + 1] else null)
    && tags[i].prev == (if i > 0 then tags[i - 1] else null)
  }

  class Queue {
    var head: QTag?
    var tail: QTag?
    var size: int
    /** The tags from head to tail. */
    ghost var tags: seq<QTag>

    ghost predicate Valid()
      reads this, tags
    {
      && size == |tags|
      && NoRepeats(tags)
      && head == (if tags == [] then null else tags[0])
      && tail == (if tags == [] then null else tags[|tags| - 1])
      && (forall i :: 0 <= i < |tags| ==> Linked(tags, i))
    }

    constructor ()
      ensures Valid() && tags == []
    {
      head, tail, size, tags := null, null, 0, [];
    }

    method Put(qt: QTag)
      requires Valid() && qt !in tags
      modifies this, qt, tags
      ensures Valid() && tags == [qt] + old(tags)
    {
      size := size + 1;
      if head == null {
        head, tail := qt, qt;
        qt.next, qt.prev := null, null;
      } else {
        head.prev := qt;
        qt.next := head;
        qt.prev := null;
        head := qt;
      }
      ghost var was := tags;
      tags := [qt] + was;
      forall i | 0 <= i < |tags| ensures Linked(tags, i) {
        if i > 0 { assert old(Linked(was, i - 1)); }
      }
    }

    method Pull() returns (qt: QTag?)
      requires Valid()
      modifies this, tags
      ensures Valid()
      ensures old(tags) == [] ==> qt == null && tags == []
      ensures old(tags) != [] ==> qt == old(tags)[|old(tags)| - 1] && tags == old(tags)[..|old(tags)| - 1]
    {
      if tail == null {
        return null;
      }
      ghost var was := tags;
      assert Linked(was, |was| - 1);
      size := size - 1;
      qt := tail;
      if qt.prev != null {
        qt.prev.next := null;
        tail := qt.prev;
      } else {
        head, tail := null, null;
      }
      tags := was[..|was| - 1];
      forall i | 0 <= i < |tags| ensures Linked(tags, i) {
        assert old(Linked(was, i));
      }
    }

    /** The first half of `front_queue`. */
    method Unlink(qt: QTag, ghost k: nat)
      requires Valid() && k < |tags| && tags[k] == qt
      modifies this, tags
      ensures Valid() && tags == Without(old(tags), k)
    {
      ghost var was := tags;
      hide NoRepeats, Without;
      Apart(was, k);
      if k > 0 { Apart(was, k - 1); }
      if k + 1 < |was| { Apart(was, k + 1); }
      assert Linked(was, k);
      assert k > 0 ==> Linked(was, k - 1);
      assert k + 1 < |was| ==> Linked(was, k + 1);
      if qt.prev != null {
        qt.prev.next := qt.next;
        if qt == tail {
          tail := qt.prev;
        }
      }
      if qt.next != null {
        qt.next.prev := qt.prev;
        if qt == head {
          head := qt.next;
        }
      }
      if qt.prev == null && qt.next == null {
        head, tail := null, null;
      }
      qt.next, qt.prev := null, null;
      size := size - 1;
      tags := Without(tags, k);
      forall i | 0 <= i < |tags| ensures Linked(tags, i) {
        assert old(Linked(was, if i < k then i else i + 1));
      }
    }

    method Front(qt: QTag, ghost k: nat)
      requires Valid() && k < |tags| && tags[k] == qt
      modifies this, tags
      ensures Valid() && tags == [qt] + Without(old(tags), k)
    {
      Unlink(qt, k);
      Put(qt);
    }
  }
}
