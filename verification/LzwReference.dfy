/** The compressor of util/ed/compress.c is LZW: a reference compressor over a
    list of phrases, with no hash table, and the proof that the program's codes
    and tables stand for its phrases and lists. */
module LzwReference {
  import opened Bytes
  import opened LzwTable
  import opened LzwCodec

  // ----- the reference -----

  type Phrase = seq<Byte>

  /** A phrase put out, and the phrases known at that time. */
  datatype Emission = Emission(known: seq<Phrase>, phrase: Phrase)

  function Singles256(n: nat): (s: seq<Phrase>)
    requires n <= 256
    ensures |s| == n && forall b :: 0 <= b < n ==> s[b] == [b as Byte]
  {
    if n == 0 then [] else Singles256(n - 1) + [[(n - 1) as Byte]]
  }

  /** As long as there is room, every phrase that was missed becomes known. */
  function Extended(known: seq<Phrase>, p: Phrase): seq<Phrase> {
    if |known| < 4096 then known + [p] else known
  }

  /** Match as long as the phrase is known; then put it out and start afresh. */
  function Reference(known: seq<Phrase>, w: Phrase, rest: seq<Byte>): (es: seq<Emission>)
    ensures es != []
    decreases |rest|
  {
    if rest == [] then [Emission(known, w)]
    else if w + [rest[0]] in known then Reference(known, w + [rest[0]], rest[1..])
    else [Emission(known, w)] + Reference(Extended(known, w + [rest[0]]), [rest[0]], rest[1..])
  }

  function ReferenceOf(x: seq<Byte>): seq<Emission>
    requires x != []
  {
    Reference(Singles256(256), [x[0]], x[1..])
  }

  // ----- what it does -----

  function Smaller(a: nat, b: nat): nat { if a < b then a else b }

  /** One phrase more is known with every emission, up to 4096: the phrase put
      out and the byte after it, whatever its length. */
  lemma {:induction false} ReferenceLearns(known: seq<Phrase>, w: Phrase, rest: seq<Byte>)
    requires w != [] && |known| <= 4096
    ensures var es := Reference(known, w, rest);
      && es[0].known == known && es[0].phrase != [] && es[0].phrase[0] == w[0]
      && (forall k :: 0 <= k < |es| ==> es[k].phrase != [] && |es[k].known| == Smaller(4096, |known| + k))
      && (forall k :: 0 < k < |es| ==> es[k].known == Extended(es[k - 1].known, es[k - 1].phrase + [es[k].phrase[0]]))
    decreases |rest|
  {
    if rest != [] {
      if w + [rest[0]] in known {
        ReferenceLearns(known, w + [rest[0]], rest[1..]);
      } else {
        var more := Extended(known, w + [rest[0]]);
        ReferenceLearns(more, [rest[0]], rest[1..]);
        var es, fs := Reference(known, w, rest), Reference(more, [rest[0]], rest[1..]);
        assert forall k :: 0 < k < |es| ==> es[k] == fs[k - 1];
      }
    }
  }

  /** The phrases put out are the text. */
  lemma {:induction false} ReferenceCovers(known: seq<Phrase>, w: Phrase, rest: seq<Byte>)
    ensures Joined(Reference(known, w, rest)) == w + rest
    decreases |rest|
  {
    if rest == [] {
      assert [Emission(known, w)][1..] == [];
      assert w + [] == w;
    } else if w + [rest[0]] in known {
      ReferenceCovers(known, w + [rest[0]], rest[1..]);
      assert w + [rest[0]] + rest[1..] == w + rest;
    } else {
      var es := Reference(Extended(known, w + [rest[0]]), [rest[0]], rest[1..]);
      ReferenceCovers(Extended(known, w + [rest[0]]), [rest[0]], rest[1..]);
      assert ([Emission(known, w)] + es)[1..] == es;
      assert w + ([rest[0]] + rest[1..]) == w + rest;
    }
  }

  function Joined(es: seq<Emission>): seq<Byte> {
    if es == [] then [] else es[0].phrase + Joined(es[1..])
  }

  // ----- the table as a list of phrases -----

  /** The entries, in the order they were made, stand for the known phrases. */
  ghost predicate Spells(t: Table, known: seq<Phrase>) {
    && Dictionary(t) && |known| == |t.order|
    && forall k {:trigger known[k]} :: 0 <= k < |known| ==> SpellsAt(t, known, k)
  }

  ghost predicate SpellsAt(t: Table, known: seq<Phrase>, k: nat)
    requires Dictionary(t) && |known| == |t.order| && k < |known|
  {
    Used(t, t.order[k]) && Spell(t, t.order[k]) == known[k]
  }

  /** No two entries stand for the same phrase. */
  lemma {:induction false} SpellsOnce(t: Table, i: nat, j: nat)
    requires Dictionary(t) && Used(t, i) && Used(t, j) && Spell(t, i) == Spell(t, j)
    ensures i == j
    decreases t.rank[i]
  {
    hide H, Threaded, Hashed;
    PredecessorKind(t, i);
    PredecessorKind(t, j);
    var p, q := t.slots[i].predecessor, t.slots[j].predecessor;
    var w := Spell(t, i);
    assert w[|w| - 1] == t.slots[i].follower == t.slots[j].follower;
    if p != NO_PRED && q != NO_PRED {
      assert Spell(t, p) == w[..|w| - 1] == Spell(t, q);
      SpellsOnce(t, p, q);
    }
    assert Holds(t, j, p, t.slots[i].follower) by { SpellSizes(t, i, j); }
    assert Distinguished(t, i, j);
  }

  lemma SpellSizes(t: Table, i: nat, j: nat)
    requires Dictionary(t) && Used(t, i) && Used(t, j) && Spell(t, i) == Spell(t, j)
    ensures t.slots[i].predecessor == NO_PRED <==> t.slots[j].predecessor == NO_PRED
  {
    hide H, Threaded, Hashed, Distinct;
    PredecessorKind(t, i);
    PredecessorKind(t, j);
  }

  /** `unhash` finds an extension exactly if its phrase is known. */
  lemma FindIsKnown(t: Table, known: seq<Phrase>, code: nat, c: Byte)
    requires Spells(t, known) && Used(t, code)
    ensures Find(t, code, c) != NOT_FND <==> Spell(t, code) + [c] in known
    ensures Find(t, code, c) != NOT_FND ==>
      Used(t, Find(t, code, c)) && Spell(t, Find(t, code, c)) == Spell(t, code) + [c]
  {
    hide H, Find, Threaded, Hashed, Distinct, Rooted;
    FindExact(t, code, c);
    var w := Spell(t, code) + [c];
    if Find(t, code, c) != NOT_FND {
      Extends(t, code, c);
      var i := Find(t, code, c);
      assert SpellsAt(t, known, t.rank[i]) && known[t.rank[i]] == w;
    } else if w in known {
      var k :| 0 <= k < |known| && known[k] == w;
      assert SpellsAt(t, known, k);
      LongEntry(t, t.order[k], code, c);
    }
  }

  lemma LongEntry(t: Table, i: nat, code: nat, c: Byte)
    requires Dictionary(t) && Used(t, i) && Used(t, code) && Spell(t, i) == Spell(t, code) + [c]
    ensures Holds(t, i, code, c)
  {
    hide H, Threaded, Hashed, Distinct;
    PredecessorKind(t, i);
    var w, p := Spell(t, i), t.slots[i].predecessor;
    assert |w| >= 2 && w[|w| - 1] == c && w[..|w| - 1] == Spell(t, code);
    assert p != NO_PRED && w == Spell(t, p) + [t.slots[i].follower];
    assert Spell(t, p) == w[..|w| - 1];
    SpellsOnce(t, p, code);
  }

  lemma LearnSpells(t: Table, known: seq<Phrase>, code: nat, c: Byte)
    requires Spells(t, known) && Used(t, code) && Find(t, code, c) == NOT_FND
    ensures Absent(t, code, c) && Spells(Learn(t, code, c), Extended(known, Spell(t, code) + [c]))
    ensures StillSpells(Learn(t, code, c), code, Spell(t, code))
  {
    hide H, Find, Insert, Threaded, Hashed, Rooted, Distinct, Spell;
    FindExact(t, code, c);
    LearnDictionary(t, code, c);
    if |t.order| < TABSIZE {
      var t', s := Learn(t, code, c), SlotFor(t, code, c);
      var more := known + [Spell(t, code) + [c]];
      SpellKept(t, t', s, code, c, code);
      NewEntry(t', s, code, c);
      forall k | 0 <= k < |more| ensures SpellsAt(t', more, k) {
        if k < |known| {
          assert SpellsAt(t, known, k);
          SpellKept(t, t', s, code, c, t.order[k]);
        }
      }
    }
  }

  lemma NewEntry(t: Table, s: nat, code: nat, c: Byte)
    requires Dictionary(t) && Used(t, s) && Holds(t, s, code, c) && code != NO_PRED && Used(t, code)
    ensures Spell(t, s) == Spell(t, code) + [c]
  {
    hide H, Threaded, Hashed, Distinct, Rooted;
  }

  // ----- refinement -----

  /** Emission k of the reference is code k of the program, out of table k, and
      the next table still has it. */
  ghost predicate Agree(codes: seq<nat>, tables: seq<Table>, es: seq<Emission>, k: nat)
    requires k < |codes| == |tables| == |es|
  {
    && Spells(tables[k], es[k].known) && Used(tables[k], codes[k])
    && Spell(tables[k], codes[k]) == es[k].phrase
    && (k + 1 < |codes| ==> StillSpells(tables[k + 1], codes[k], es[k].phrase))
  }

  ghost predicate StillSpells(t: Table, code: nat, p: Phrase) {
    Dictionary(t) && Used(t, code) && Spell(t, code) == p
  }

  lemma {:induction false} EncodeAgrees(t: Table, known: seq<Phrase>, code: nat, rest: seq<Byte>)
    requires Spells(t, known) && Used(t, code)
    ensures var codes, tables := EncodeFrom(t, code, rest), [t] + EncodeTables(t, code, rest);
      var es := Reference(known, Spell(t, code), rest);
      |codes| == |tables| == |es| && forall k :: 0 <= k < |codes| ==> Agree(codes, tables, es, k)
    decreases |rest|
  {
    assert Dictionary(t);
    hide H, Find, Insert, Threaded, Hashed, Rooted, Distinct, Spell, Spells, Extended;
    if rest != [] {
      var c := rest[0];
      FindIsKnown(t, known, code, c);
      if Find(t, code, c) != NOT_FND {
        EncodeAgrees(t, known, Find(t, code, c), rest[1..]);
      } else {
        LearnSpells(t, known, code, c);
        var t', more := Learn(t, code, c), Extended(known, Spell(t, code) + [c]);
        LearnDictionary(t, code, c);
        var code' := Root(t', c);
        EncodeAgrees(t', more, code', rest[1..]);
        AgreeShift(code, EncodeFrom(t', code', rest[1..]), t, [t'] + EncodeTables(t', code', rest[1..]),
                   Emission(known, Spell(t, code)), Reference(more, [c], rest[1..]));
      }
    }
  }

  lemma AgreeShift(code: nat, codes: seq<nat>, t: Table, tables: seq<Table>, e: Emission, es: seq<Emission>)
    requires |codes| == |tables| == |es| && Agree([code], [t], [e], 0)
    requires codes != [] ==> StillSpells(tables[0], code, e.phrase)
    requires forall k :: 0 <= k < |codes| ==> Agree(codes, tables, es, k)
    ensures forall k :: 0 <= k <= |codes| ==> Agree([code] + codes, [t] + tables, [e] + es, k)
  {
    hide Spells, Spell, Dictionary, StillSpells;
    forall k | 0 <= k <= |codes| ensures Agree([code] + codes, [t] + tables, [e] + es, k) {
      if k > 0 { assert Agree(codes, tables, es, k - 1); }
    }
  }

  lemma StartSpells()
    ensures Spells(Start(), Singles256(256))
  {
    hide H, Find, Threaded, Hashed, Distinct, Start, Singles256;
    var t := Start();
    forall k | 0 <= k < 256 ensures SpellsAt(t, Singles256(256), k) {
      assert Holds(t, t.order[k], NO_PRED, k);
    }
  }

  /** The compressor emits, code by code, the phrases of the reference, and its
      table holds, entry by entry, the phrases the reference knows. */
  lemma RefinesReference(x: seq<Byte>)
    requires x != []
    ensures var es := ReferenceOf(x);
      && |Encode(x)| == |CompressorTables(x)| == |es|
      && forall k :: 0 <= k < |es| ==> Agree(Encode(x), CompressorTables(x), es, k)
  {
    hide H, Find, Threaded, Hashed, Rooted, Distinct, Start, Spells, EncodeFrom, EncodeTables, Reference, Singles256;
    StartSpells();
    assert Dictionary(Start());
    EncodeAgrees(Start(), Singles256(256), Root(Start(), x[0]), x[1..]);
  }

  /** Every miss is entered as long as there is room: after k codes the table has
      256 + k entries, 4096 at the most, and if it was not full, the pair of code
      k and the first byte of the next phrase is found in the table after it. */
  lemma EveryMissLearned(x: seq<Byte>, k: nat)
    requires x != [] && k < |CompressorTables(x)|
    ensures Dictionary(CompressorTables(x)[k]) && |CompressorTables(x)[k].order| == Smaller(4096, 256 + k)
    ensures k + 1 < |CompressorTables(x)| && 256 + k < 4096 ==>
      && k + 1 < |ReferenceOf(x)| && ReferenceOf(x)[k + 1].phrase != [] && k + 1 < |Encode(x)|
      && Dictionary(CompressorTables(x)[k + 1])
      && Find(CompressorTables(x)[k + 1], Encode(x)[k], ReferenceOf(x)[k + 1].phrase[0]) != NOT_FND
  {
    hide H, Find, Threaded, Hashed, Rooted, Distinct, Spell, Encode, CompressorTables, Reference, Singles256;
    RefinesReference(x);
    ReferenceLearns(Singles256(256), [x[0]], x[1..]);
    var codes, ts, es := Encode(x), CompressorTables(x), ReferenceOf(x);
    assert Agree(codes, ts, es, k);
    if k + 1 < |ts| && 256 + k < 4096 {
      assert Agree(codes, ts, es, k + 1);
      var p := es[k].phrase + [es[k + 1].phrase[0]];
      assert es[k + 1].known == es[k].known + [p];
      assert es[k + 1].known[|es[k].known|] == p;
      FindIsKnown(ts[k + 1], es[k + 1].known, codes[k], es[k + 1].phrase[0]);
    }
  }
}
