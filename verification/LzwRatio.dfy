/** Texts that the compressor of util/ed/compress.c makes shorter for certain:
    once every pair of letters is in the table, every code but the last stands
    for two letters or more. */
module LzwRatio {
  import opened Bytes
  import opened LzwTable
  import opened LzwCodec

  /** The letters are the bytes below this one; those above separate. */
  const LETTERS: nat := 12

  predicate IsLetter(b: Byte) { b < LETTERS }

  predicate AllLetters(s: seq<Byte>) { forall i :: 0 <= i < |s| ==> IsLetter(s[i]) }

  // ----- what learning keeps -----

  ghost predicate HasPair(t: Table, a: Byte, b: Byte)
    requires Dictionary(t)
  {
    Find(t, Root(t, a), b) != NOT_FND
  }

  /** Nothing was learned yet that ends in v or extends it alone. */
  ghost predicate Unseen(t: Table, v: Byte)
    requires Dictionary(t)
  {
    forall i {:trigger Used(t, i)} :: Used(t, i) && t.slots[i].predecessor != NO_PRED ==>
      t.slots[i].follower != v && t.slots[i].predecessor != Root(t, v)
  }

  lemma FindKept(t: Table, pred: nat, foll: Byte, p: nat, c: Byte)
    requires Dictionary(t) && Used(t, pred) && Absent(t, pred, foll)
    ensures Dictionary(Learn(t, pred, foll))
    ensures Find(t, p, c) != NOT_FND ==> Find(Learn(t, pred, foll), p, c) == Find(t, p, c)
  {
    hide H, Find, Threaded, Hashed, Rooted, Insert;
    LearnDictionary(t, pred, foll);
    var t' := Learn(t, pred, foll);
    FindExact(t, p, c);
    FindExact(t', p, c);
    if Find(t, p, c) != NOT_FND {
      assert Holds(t', Find(t, p, c), p, c);
      assert Distinguished(t', Find(t, p, c), Find(t', p, c));
    }
  }

  lemma RootHolds(t: Table, c: Byte)
    requires Dictionary(t)
    ensures Holds(t, Root(t, c), NO_PRED, c) && Root(t, c) == Find(t, NO_PRED, c) != NOT_FND
  {
    hide H, Find, Threaded, Hashed, Distinct;
    FindExact(t, NO_PRED, c);
    assert Holds(t, t.order[c], NO_PRED, c);
  }

  lemma RootKept(t: Table, pred: nat, foll: Byte, c: Byte)
    requires Dictionary(t) && Used(t, pred) && Absent(t, pred, foll)
    ensures Dictionary(Learn(t, pred, foll)) && Root(Learn(t, pred, foll), c) == Root(t, c)
  {
    hide H, Find, Threaded, Hashed, Rooted, Distinct, Learn;
    FindKept(t, pred, foll, NO_PRED, c);
    RootHolds(t, c);
    RootHolds(Learn(t, pred, foll), c);
  }

  lemma PairKept(t: Table, pred: nat, foll: Byte, a: Byte, b: Byte)
    requires Dictionary(t) && Used(t, pred) && Absent(t, pred, foll) && HasPair(t, a, b)
    ensures Dictionary(Learn(t, pred, foll)) && HasPair(Learn(t, pred, foll), a, b)
  {
    hide H, Find, Threaded, Hashed, Rooted, Distinct, Learn;
    RootKept(t, pred, foll, a);
    FindKept(t, pred, foll, Root(t, a), b);
  }

  lemma UnseenKept(t: Table, pred: nat, foll: Byte, v: Byte)
    requires Dictionary(t) && Used(t, pred) && Absent(t, pred, foll)
    requires Unseen(t, v) && foll != v && pred != Root(t, v)
    ensures Dictionary(Learn(t, pred, foll)) && Unseen(Learn(t, pred, foll), v)
  {
    hide H, Find, Threaded, Hashed, Rooted, Distinct, Insert;
    RootKept(t, pred, foll, v);
    var t' := Learn(t, pred, foll);
    forall i | Used(t', i) && t'.slots[i].predecessor != NO_PRED
      ensures t'.slots[i].follower != v && t'.slots[i].predecessor != Root(t', v)
    {
      if |t.order| < TABSIZE && i == SlotFor(t, pred, foll) { } else { assert Used(t, i); }
    }
  }

  /** An unseen byte extends nothing and nothing extends it. */
  lemma UnseenAbsent(t: Table, v: Byte, code: nat, c: Byte)
    requires Dictionary(t) && Unseen(t, v) && code < TABSIZE
    ensures Find(t, code, v) == NOT_FND && Absent(t, code, v)
    ensures Find(t, Root(t, v), c) == NOT_FND && Absent(t, Root(t, v), c)
  {
    hide H, Find, Threaded, Hashed, Rooted, Distinct;
    FindExact(t, code, v);
    FindExact(t, Root(t, v), c);
  }

  // ----- one byte -----

  /** The table and the code after the next byte. */
  function Move(t: Table, code: nat, c: Byte): (r: (Table, nat))
    requires Dictionary(t) && Used(t, code)
    ensures Dictionary(r.0) && Used(r.0, r.1) && r.0.slots[r.1].follower == c
  {
    hide H, Find, Insert, Threaded, Hashed, Rooted, Distinct;
    FindExact(t, code, c);
    if Find(t, code, c) != NOT_FND then (t, Find(t, code, c)) else
      LearnDictionary(t, code, c);
      RootHolds(Learn(t, code, c), c);
      (Learn(t, code, c), Root(Learn(t, code, c), c))
  }

  lemma MoveEncodes(t: Table, code: nat, c: Byte, rest: seq<Byte>)
    requires Dictionary(t) && Used(t, code)
    ensures var (t', code') := Move(t, code, c);
      && |EncodeFrom(t, code, [c] + rest)| == |EncodeFrom(t', code', rest)| + (if Find(t, code, c) == NOT_FND then 1 else 0)
      && |t'.order| <= |t.order| + 1
  {
    hide H, Find, Insert, Threaded, Hashed, Rooted, Distinct;
    FindExact(t, code, c);
    if Find(t, code, c) == NOT_FND { LearnDictionary(t, code, c); }
    assert ([c] + rest)[1..] == rest;
  }

  /** No byte from v on was seen, and the string matched does not end in one. */
  ghost predicate Below(t: Table, code: nat, v: nat)
    requires Dictionary(t) && Used(t, code)
  {
    t.slots[code].follower < v && forall u: Byte {:trigger Unseen(t, u)} :: v <= u ==> Unseen(t, u)
  }

  lemma MoveBelow(t: Table, code: nat, c: Byte, v: nat)
    requires Dictionary(t) && Used(t, code) && Below(t, code, v) && c < v
    ensures Below(Move(t, code, c).0, Move(t, code, c).1, v)
  {
    hide H, Find, Learn, Threaded, Hashed, Rooted, Distinct, Unseen;
    FindExact(t, code, c);
    if Find(t, code, c) == NOT_FND {
      forall u: Byte | v <= u ensures Unseen(Move(t, code, c).0, u) {
        RootHolds(t, u);
        UnseenKept(t, code, c, u);
      }
    }
  }

  lemma MovePairs(t: Table, code: nat, c: Byte, a: Byte, b: Byte)
    requires Dictionary(t) && Used(t, code)
    ensures HasPair(t, a, b) ==> HasPair(Move(t, code, c).0, a, b)
    ensures code == Root(t, a) && c == b && |t.order| < TABSIZE ==> HasPair(Move(t, code, c).0, a, b)
  {
    hide H, Find, Threaded, Hashed, Rooted, Distinct, Insert;
    FindExact(t, code, c);
    if Find(t, code, c) == NOT_FND {
      var t' := Learn(t, code, c);
      if HasPair(t, a, b) { PairKept(t, code, c, a, b); }
      RootKept(t, code, c, a);
      FindExact(t', code, c);
      if |t.order| < TABSIZE { assert Holds(t', SlotFor(t, code, c), code, c); }
    }
  }

  /** From one unseen byte on, the strings matched start afresh. */
  lemma MoveUnseen(t: Table, code: nat, v: Byte, a: Byte)
    requires Dictionary(t) && Used(t, code) && Below(t, code, v) && a != v
    ensures var (t', code') := Move(t, code, v);
      Move(t', code', a).1 == Root(Move(t', code', a).0, a)
  {
    hide H, Find, Threaded, Hashed, Rooted, Distinct, Insert;
    UnseenAbsent(t, v, code, a);
    RootHolds(t, v);
    RootKept(t, code, v, v);
    var t' := Learn(t, code, v);
    forall i ensures !Holds(t', i, Root(t', v), a) {
      assert !Holds(t, i, Root(t, v), a);
    }
    FindExact(t', Root(t', v), a);
  }

  // ----- many bytes -----

  function MoveAll(t: Table, code: nat, p: seq<Byte>): (r: (Table, nat))
    requires Dictionary(t) && Used(t, code)
    ensures Dictionary(r.0) && Used(r.0, r.1) && (p != [] ==> r.0.slots[r.1].follower == p[|p| - 1])
    decreases |p|
  {
    hide Dictionary, Move;
    if p == [] then (t, code) else MoveAll(Move(t, code, p[0]).0, Move(t, code, p[0]).1, p[1..])
  }

  lemma {:induction false} MoveAllAppend(t: Table, code: nat, p: seq<Byte>, q: seq<Byte>)
    requires Dictionary(t) && Used(t, code)
    ensures var (t', code') := MoveAll(t, code, p); MoveAll(t, code, p + q) == MoveAll(t', code', q)
    decreases |p|
  {
    hide Dictionary, Move;
    if p == [] {
      assert p + q == q;
    } else {
      assert (p + q)[0] == p[0] && (p + q)[1..] == p[1..] + q;
      MoveAllAppend(Move(t, code, p[0]).0, Move(t, code, p[0]).1, p[1..], q);
    }
  }

  lemma {:induction false} MoveAllEncodes(t: Table, code: nat, p: seq<Byte>, rest: seq<Byte>)
    requires Dictionary(t) && Used(t, code)
    ensures var (t', code') := MoveAll(t, code, p);
      |EncodeFrom(t, code, p + rest)| <= |p| + |EncodeFrom(t', code', rest)| && |t'.order| <= |t.order| + |p|
    decreases |p|
  {
    hide Dictionary, Move, EncodeFrom, Find;
    if p == [] {
      assert p + rest == rest;
    } else {
      MoveEncodes(t, code, p[0], p[1..] + rest);
      assert p + rest == [p[0]] + (p[1..] + rest);
      MoveAllEncodes(Move(t, code, p[0]).0, Move(t, code, p[0]).1, p[1..], rest);
    }
  }

  lemma {:induction false} MoveAllBelow(t: Table, code: nat, p: seq<Byte>, v: nat)
    requires Dictionary(t) && Used(t, code) && Below(t, code, v) && forall i :: 0 <= i < |p| ==> p[i] < v
    ensures Below(MoveAll(t, code, p).0, MoveAll(t, code, p).1, v)
    decreases |p|
  {
    hide Dictionary, Move, Below;
    if p != [] {
      MoveBelow(t, code, p[0], v);
      MoveAllBelow(Move(t, code, p[0]).0, Move(t, code, p[0]).1, p[1..], v);
    }
  }

  lemma {:induction false} MoveAllPairs(t: Table, code: nat, p: seq<Byte>, a: Byte, b: Byte)
    requires Dictionary(t) && Used(t, code) && HasPair(t, a, b)
    ensures HasPair(MoveAll(t, code, p).0, a, b)
    decreases |p|
  {
    hide Dictionary, Move, HasPair;
    if p != [] {
      MovePairs(t, code, p[0], a, b);
      MoveAllPairs(Move(t, code, p[0]).0, Move(t, code, p[0]).1, p[1..], a, b);
    }
  }

  // ----- a text from which every pair is learned -----

  /** Pair k of letters behind a separator of its own. */
  function Triple(k: nat): seq<Byte>
    requires k < LETTERS * LETTERS
  {
    [LETTERS + k, k / LETTERS, k % LETTERS]
  }

  function Triples(n: nat): (s: seq<Byte>)
    requires n <= LETTERS * LETTERS
    ensures |s| == 3 * n && (n > 0 ==> IsLetter(s[3 * n - 1]))
  {
    if n == 0 then [] else Triples(n - 1) + Triple(n - 1)
  }

  lemma TripleLearned(t: Table, code: nat, k: nat)
    requires Dictionary(t) && Used(t, code) && k < LETTERS * LETTERS
    requires Below(t, code, LETTERS + k) && |t.order| + 3 <= TABSIZE
    ensures var (t', code') := MoveAll(t, code, Triple(k));
      Below(t', code', LETTERS + k + 1) && HasPair(t', k / LETTERS, k % LETTERS)
  {
    hide Dictionary, Move, HasPair, Find;
    var v: Byte, a: Byte, b: Byte := LETTERS + k, k / LETTERS, k % LETTERS;
    var (t1, c1) := Move(t, code, v);
    var (t2, c2) := Move(t1, c1, a);
    MoveEncodes(t, code, v, []);
    MoveEncodes(t1, c1, a, []);
    MoveUnseen(t, code, v, a);
    MovePairs(t2, c2, b, a, b);
    assert [v, a, b][1..] == [a, b] && [a, b][1..] == [b] && [b][1..] == [];
    assert MoveAll(t2, c2, [b]) == Move(t2, c2, b);
    assert MoveAll(t1, c1, [a, b]) == Move(t2, c2, b);
    assert MoveAll(t, code, Triple(k)) == Move(t2, c2, b);
    assert Below(t, code, LETTERS + k + 1);
    MoveAllBelow(t, code, Triple(k), LETTERS + k + 1);
  }

  lemma {:induction false} TriplesLearned(t: Table, code: nat, n: nat, k: nat)
    requires Dictionary(t) && Used(t, code) && n <= LETTERS * LETTERS
    requires Below(t, code, LETTERS) && |t.order| + 3 * n <= TABSIZE
    ensures var (t', code') := MoveAll(t, code, Triples(n));
      Below(t', code', LETTERS + n) && (k < n ==> HasPair(t', k / LETTERS, k % LETTERS))
    decreases n
  {
    hide Dictionary, Move, MoveAll, HasPair, Below, Triple;
    if n == 0 {
      MoveNone(t, code);
    } else {
      var (t', code') := MoveAll(t, code, Triples(n - 1));
      TriplesLearned(t, code, n - 1, k);
      MoveAllEncodes(t, code, Triples(n - 1), []);
      MoveAllAppend(t, code, Triples(n - 1), Triple(n - 1));
      TripleLearned(t', code', n - 1);
      if k < n - 1 { MoveAllPairs(t', code', Triple(n - 1), k / LETTERS, k % LETTERS); }
    }
  }

  lemma MoveNone(t: Table, code: nat)
    requires Dictionary(t) && Used(t, code)
    ensures MoveAll(t, code, []) == (t, code)
  {
  }

  // ----- the bound -----

  ghost predicate AllPairs(t: Table)
    requires Dictionary(t)
  {
    forall a: Byte, b: Byte {:trigger HasPair(t, a, b)} :: IsLetter(a) && IsLetter(b) ==> HasPair(t, a, b)
  }

  /** With every pair of letters in the table a code is emitted at most for
      every second letter. */
  lemma {:induction false} LettersPaired(t: Table, code: nat, rest: seq<Byte>)
    requires Dictionary(t) && Used(t, code) && AllPairs(t) && AllLetters(rest) && IsLetter(t.slots[code].follower)
    ensures |EncodeFrom(t, code, rest)| <= 1 + (|rest| + 1) / 2
    ensures code == Root(t, t.slots[code].follower) ==> |EncodeFrom(t, code, rest)| <= 1 + |rest| / 2
    decreases |rest|
  {
    hide Dictionary, EncodeFrom, HasPair, Find, Learn;
    if rest == [] {
      EncodeEnd(t, code);
    } else {
      var c := rest[0];
      var (t', code') := Move(t, code, c);
      assert rest == [c] + rest[1..];
      MoveEncodes(t, code, c, rest[1..]);
      forall a: Byte, b: Byte | IsLetter(a) && IsLetter(b) ensures HasPair(t', a, b) {
        MovePairs(t, code, c, a, b);
      }
      LettersPaired(t', code', rest[1..]);
      PairFound(t, code, c);
    }
  }

  lemma PairFound(t: Table, code: nat, c: Byte)
    requires Dictionary(t) && Used(t, code)
    ensures HasPair(t, t.slots[code].follower, c) && code == Root(t, t.slots[code].follower) ==> Find(t, code, c) != NOT_FND
    ensures Find(t, code, c) == NOT_FND ==> Move(t, code, c).1 == Root(Move(t, code, c).0, c)
  {
    hide H, Insert, Threaded, Hashed, Rooted, Distinct;
  }

  lemma StartBelow(c: Byte)
    requires IsLetter(c)
    ensures var t := Start(); Below(t, Root(t, c), LETTERS) && |t.order| == 256
  {
    hide H, Find, Threaded, Hashed, Distinct, Start;
    var t := Start();
    RootHolds(t, c);
    forall i ensures Used(t, i) ==> t.slots[i].predecessor == NO_PRED {
      if Used(t, i) {
        PredecessorKind(t, i);
        assert t.rank[i] < |t.order|;
      }
    }
    forall u: Byte ensures Unseen(t, u) { }
  }

  const PAIRS: nat := LETTERS * LETTERS

  /** A text of letters in which the pairs are learned early: it takes a code for
      every second letter that follows, the ones up to there not counted. */
  lemma EncodeBound(c: Byte, p: seq<Byte>, rest: seq<Byte>)
    requires IsLetter(c) && AllLetters(p) && AllLetters(rest) && |p| + 3 * PAIRS <= TABSIZE - 256
    ensures |Encode([c] + (p + (Triples(PAIRS) + rest)))| <= |p| + 3 * PAIRS + 1 + (|rest| + 1) / 2
  {
    hide Dictionary, Start, Root, EncodeFrom, MoveAll, Triples, Below, AllPairs;
    var t := Start();
    var code, q := Root(t, c), Triples(PAIRS);
    var (t1, c1) := MoveAll(t, code, p);
    var (t2, c2) := MoveAll(t1, c1, q);
    StartBelow(c);
    MoveAllBelow(t, code, p, LETTERS);
    MoveAllEncodes(t, code, p, q + rest);
    MoveAllEncodes(t1, c1, q, rest);
    PairsLearned(t1, c1);
    LettersPaired(t2, c2, rest);
    var x := [c] + (p + (q + rest));
    assert x[0] == c && x[1..] == p + (q + rest);
  }

  lemma PairsLearned(t: Table, code: nat)
    requires Dictionary(t) && Used(t, code) && Below(t, code, LETTERS) && |t.order| + 3 * PAIRS <= TABSIZE
    ensures AllPairs(MoveAll(t, code, Triples(PAIRS)).0)
  {
    hide Dictionary, MoveAll, HasPair, Below, Triples;
    forall a: Byte, b: Byte | IsLetter(a) && IsLetter(b) ensures HasPair(MoveAll(t, code, Triples(PAIRS)).0, a, b) {
      var k := LETTERS * a + b;
      assert k / LETTERS == a && k % LETTERS == b;
      TriplesLearned(t, code, PAIRS, k);
    }
  }
}
