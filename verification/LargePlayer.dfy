/** A player that `save_ply` of util/ed/files2.c saves and `load_ply` does not
    load. None is written down: the files that are loaded are too few. */
module LargePlayer {
  import opened Bytes
  import opened LzwTable
  import opened LzwCodec
  import opened LzwPacking
  import opened LzwRatio
  import opened Counting
  import opened Records
  import opened Trees
  import opened PlayerFile

  const ITEMS: nat := 264
  const WORD: nat := ITEMS * OBJ_REST

  // ----- players full of letters -----

  function ItemWith(w: seq<Byte>): (o: Object)
    requires |w| == OBJ_REST
    ensures Storable(o)
  {
    assert StorableAll([]);
    Object(ObjRec(0, 0, false, false, Zeros(OBJ_LINKS), w), [])
  }

  /** One item for each stretch of the word. */
  function ItemsWith(w: seq<Byte>, k: nat): (os: seq<Object>)
    requires k <= ITEMS && |w| == k * OBJ_REST
    ensures |os| == k && StorableAll(os)
  {
    if k == 0 then [] else
      var os := ItemsWith(w[OBJ_REST..], k - 1);
      assert forall i :: 0 < i < k ==> ([ItemWith(w[..OBJ_REST])] + os)[i] == os[i - 1];
      [ItemWith(w[..OBJ_REST])] + os
  }

  function PlayerWith(w: seq<Byte>): (c: Creature)
    requires |w| == WORD
    ensures StorableCrt(c)
  {
    var rest := Triples(PAIRS) + Zeros(CRT_REST - 3 * PAIRS);
    Creature(CrtRec(0, 0, 0, 0, false, Zeros(CRT_LINKS), rest), ItemsWith(w, ITEMS))
  }

  // ----- their images -----

  lemma ItemImage(w: seq<Byte>)
    requires |w| == OBJ_REST
    ensures WriteObj(ItemWith(w), false) == Zeros(5 + OBJ_LINKS) + w + Zeros(4)
  {
    hide Zeros;
    ZerosJoin(5, OBJ_LINKS);
    assert Zeros(4) == [0, 0, 0, 0] && Zeros(5) == [0, 0, 0, 0, 0] by { SmallZeros(); }
    assert IntBytes(0) == [0, 0, 0, 0] && ShortBytes(0) == [0, 0] && FlagByte(false, false) == 0;
    assert ItemWith(w).contents == [];
    assert WriteList([], false) == [] && CountKept([], false) == 0;
  }

  lemma SmallZeros()
    ensures Zeros(4) == [0, 0, 0, 0] && Zeros(5) == [0, 0, 0, 0, 0]
  {
  }

  lemma ZerosJoin(a: nat, b: nat)
    ensures Zeros(a) + Zeros(b) == Zeros(a + b)
  {
  }

  lemma {:induction false} ItemsImage(w: seq<Byte>, k: nat)
    requires k <= ITEMS && |w| == k * OBJ_REST
    ensures CountKept(ItemsWith(w, k), false) == k
    ensures |WriteList(ItemsWith(w, k), false)| == k * (OBJ_SIZE + 4)
    ensures AllLetters(w) ==> AllLetters(WriteList(ItemsWith(w, k), false))
  {
    hide WriteObj;
    if k > 0 {
      ItemsImage(w[OBJ_REST..], k - 1);
      ItemImage(w[..OBJ_REST]);
      ItemsStep(w, k);
    }
  }

  lemma ItemsStep(w: seq<Byte>, k: nat)
    requires 0 < k <= ITEMS && |w| == k * OBJ_REST
    ensures CountKept(ItemsWith(w, k), false) == 1 + CountKept(ItemsWith(w[OBJ_REST..], k - 1), false)
    ensures WriteList(ItemsWith(w, k), false)
      == WriteObj(ItemWith(w[..OBJ_REST]), false) + WriteList(ItemsWith(w[OBJ_REST..], k - 1), false)
  {
    hide WriteObj;
    assert ItemsWith(w, k)[1..] == ItemsWith(w[OBJ_REST..], k - 1);
  }

  /** Different words make different images. */
  lemma {:induction false} ItemsDiffer(v: seq<Byte>, w: seq<Byte>, k: nat)
    requires k <= ITEMS && |v| == |w| == k * OBJ_REST
    requires WriteList(ItemsWith(v, k), false) == WriteList(ItemsWith(w, k), false)
    ensures v == w
  {
    hide WriteObj, WriteList, ItemsWith, Zeros;
    if k > 0 {
      ItemsStep(v, k);
      ItemsStep(w, k);
      ItemImage(v[..OBJ_REST]);
      ItemImage(w[..OBJ_REST]);
      var a, b := WriteList(ItemsWith(v[OBJ_REST..], k - 1), false), WriteList(ItemsWith(w[OBJ_REST..], k - 1), false);
      var z, n := Zeros(5 + OBJ_LINKS), 5 + OBJ_LINKS;
      assert (z + v[..OBJ_REST] + Zeros(4) + a)[n..n + OBJ_REST] == v[..OBJ_REST];
      assert (z + w[..OBJ_REST] + Zeros(4) + b)[n..n + OBJ_REST] == w[..OBJ_REST];
      assert (z + v[..OBJ_REST] + Zeros(4) + a)[n + OBJ_REST + 4..] == a;
      assert (z + w[..OBJ_REST] + Zeros(4) + b)[n + OBJ_REST + 4..] == b;
      ItemsDiffer(v[OBJ_REST..], w[OBJ_REST..], k - 1);
      assert v == v[..OBJ_REST] + v[OBJ_REST..] && w == w[..OBJ_REST] + w[OBJ_REST..];
    }
  }

  /** What follows the triples in a player's image. */
  function AfterTriples(w: seq<Byte>): seq<Byte>
    requires |w| == WORD
  {
    Zeros(CRT_REST - 3 * PAIRS) + ([8, 1, 0, 0] + WriteList(ItemsWith(w, ITEMS), false))
  }

  lemma PlayerImage(w: seq<Byte>)
    requires |w| == WORD
    ensures WriteCrt(PlayerWith(w), false) == [0] + (Zeros(8 + CRT_LINKS) + (Triples(PAIRS) + AfterTriples(w)))
  {
    hide WriteList, Triples, ItemsWith, CountKept, Zeros;
    ItemsImage(w, ITEMS);
    assert IntBytes(ITEMS) == [8, 1, 0, 0];
    assert ShortBytes(0) == [0, 0] && FlagByte(false, false) == 0;
    assert Zeros(4) + Zeros(4) == Zeros(8) && Zeros(4) == [0, 0, 0, 0] by { SmallZeros(); ZerosJoin(4, 4); }
    ZerosJoin(8, CRT_LINKS);
  }

  // ----- their files -----

  lemma ImageCodes(w: seq<Byte>)
    requires |w| == WORD && AllLetters(w)
    ensures var image := WriteCrt(PlayerWith(w), false);
      |image| == CRT_SIZE + 4 + ITEMS * (OBJ_SIZE + 4) && 3 * |Encode(image)| + 1 <= 2 * |image|
  {
    hide WriteCrt, WriteList, PlayerWith, Encode, Triples, Zeros, AllLetters, ItemsWith;
    PlayerImage(w);
    AfterLetters(w);
    ZeroLetters(8 + CRT_LINKS);
    assert IsLetter(0);
    EncodeBound(0, Zeros(8 + CRT_LINKS), AfterTriples(w));
  }

  lemma AfterLetters(w: seq<Byte>)
    requires |w| == WORD && AllLetters(w)
    ensures AllLetters(AfterTriples(w)) && |AfterTriples(w)| == CRT_REST - 3 * PAIRS + 4 + ITEMS * (OBJ_SIZE + 4)
  {
    hide WriteList, Zeros, ItemsWith;
    ItemsImage(w, ITEMS);
    ZeroLetters(CRT_REST - 3 * PAIRS);
    assert AllLetters([8, 1, 0, 0]);
  }

  /** The image is within `save_ply`'s buffers, the compressed image too. */
  lemma LettersSaveable(w: seq<Byte>)
    requires |w| == WORD && AllLetters(w)
    ensures Saveable(PlayerWith(w))
  {
    hide WriteCrt, PlayerWith, Encode, AllLetters, Pack;
    ImageCodes(w);
    CodesRoundTrip(WriteCrt(PlayerWith(w), false));
    PackRoundTrip(Encode(WriteCrt(PlayerWith(w), false)));
  }

  lemma ZeroLetters(n: nat)
    ensures AllLetters(Zeros(n))
  {
  }

  lemma FilesDiffer(v: seq<Byte>, w: seq<Byte>)
    requires |v| == |w| == WORD
    ensures Saved(PlayerWith(v)) == Saved(PlayerWith(w)) ==> v == w
  {
    hide WriteCrt, WriteList, PlayerWith, Compressed, Expanded, Triples, Zeros, ItemsWith;
    PlayerImage(v);
    PlayerImage(w);
    CompressRoundTrip(WriteCrt(PlayerWith(v), false));
    CompressRoundTrip(WriteCrt(PlayerWith(w), false));
    var n := 9 + CRT_LINKS + CRT_REST + 4;
    assert WriteCrt(PlayerWith(v), false)[n..] == WriteList(ItemsWith(v, ITEMS), false);
    assert WriteCrt(PlayerWith(w), false)[n..] == WriteList(ItemsWith(w, ITEMS), false);
    if Saved(PlayerWith(v)) == Saved(PlayerWith(w)) { ItemsDiffer(v, w, ITEMS); }
  }

  // ----- counting -----

  lemma MoreWords(n: nat, len: nat)
    requires n >= 9 * (len / 4 + 1)
    ensures Pow(LETTERS, n) > Pow(256, len)
  {
    hide Pow;
    var k := len / 4 + 1;
    PowCompare(k);
    PowGrows(LETTERS, 9 * k, n);
    PowGrows(256, len + 1, 4 * k);
    PowNext(len);
  }

  lemma PowGrows(m: nat, a: nat, b: nat)
    requires m > 0 && a <= b
    ensures Pow(m, a) <= Pow(m, b)
  {
    hide Pow;
    PowSum(m, a, b - a);
    Product(Pow(m, a), 1, Pow(m, a), Pow(m, b - a));
  }

  lemma PowNext(n: nat)
    ensures Pow(256, n + 1) > Pow(256, n)
  {
  }

  function FileNumber(x: nat): nat { Number(Saved(PlayerWith(WordOf(WORD, x)))) }

  /** Some player can be saved but its file is too large to be loaded. */
  lemma TooLargeExists() returns (c: Creature)
    ensures Saveable(c) && |Saved(c)| >= LOAD_LIMIT && LoadFrom(Saved(c)) == TooLarge
  {
    hide Pow, WordOf, Number, Saved, Saveable, PlayerWith, LoadFrom;
    var words, files := Pow(LETTERS, WORD), Pow(256, LOAD_LIMIT);
    MoreWords(WORD, LOAD_LIMIT);
    if forall x | 0 <= x < words :: |Saved(PlayerWith(WordOf(WORD, x)))| < LOAD_LIMIT {
      var s := seq(words, x requires x >= 0 => FileNumber(x));
      forall x | 0 <= x < words ensures s[x] < files {
        NumberBound(Saved(PlayerWith(WordOf(WORD, x))), LOAD_LIMIT);
      }
      forall x, y | 0 <= x < y < words ensures s[x] != s[y] {
        if s[x] == s[y] {
          NumbersDiffer(Saved(PlayerWith(WordOf(WORD, x))), Saved(PlayerWith(WordOf(WORD, y))));
          FilesDiffer(WordOf(WORD, x), WordOf(WORD, y));
          WordsDiffer(WORD, x, y);
        }
      }
      Pigeonhole(s, files);
    }
    var x :| 0 <= x < words && |Saved(PlayerWith(WordOf(WORD, x)))| >= LOAD_LIMIT;
    c := PlayerWith(WordOf(WORD, x));
    LettersSaveable(WordOf(WORD, x));
    SaveLoad(c);
  }
}
