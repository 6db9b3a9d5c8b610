/** Saving a player to a compressed file and loading it again: `save_ply` and
    `load_ply` of util/ed/files2.c, built with COMPRESS. */
module PlayerFile {
  import opened Bytes
  import opened LzwTable
  import opened LzwCodec
  import opened LzwPacking
  import opened LzwProgram
  import opened Records
  import opened Restoring
  import opened Trees

  const SAVE_BUFFER: nat := 80000
  const LOAD_LIMIT: nat := 30000

  /** The image fits `a_buf`, and its compressed form fits `b_buf`, which is as
      long as the image. Nothing in the program checks the second. */
  predicate Saveable(c: Creature) {
    && StorableCrt(c)
    && |WriteCrt(c, false)| <= SAVE_BUFFER
    && |Compressed(WriteCrt(c, false))| <= |WriteCrt(c, false)|
  }

  function Saved(c: Creature): seq<Byte>
    requires StorableCrt(c)
  {
    Compressed(WriteCrt(c, false))
  }

  /** `EmptyFile` is the -1 return, `TooLarge` the fatal exits, and `Corrupt`
      stands for the readings outside the table, the stack or the buffer that
      a file not made by `save_ply` can cause. */
  datatype LoadResult = Loaded(player: Creature) | EmptyFile | TooLarge | Corrupt

  function LoadFrom(file: seq<Byte>): LoadResult {
    if |file| >= LOAD_LIMIT then TooLarge
    else if |file| < 1 then EmptyFile
    else match Expanded(file)
      case Text(image) =>
        if |image| > SAVE_BUFFER then TooLarge
        else (match ReadCrt(image) case Read(c, _) => Loaded(c) case PastEnd => Corrupt)
      case _ => Corrupt
  }

  /** A saved player comes back with its whole item tree, links cleared and
      points and shots cut to their maxima, exactly if its file is within the
      size `load_ply` reads. */
  lemma SaveLoad(c: Creature)
    requires Saveable(c)
    ensures LoadFrom(Saved(c)) == Loaded(PrunedCrt(c, false)) <==> |Saved(c)| < LOAD_LIMIT
    ensures |Saved(c)| >= LOAD_LIMIT ==> LoadFrom(Saved(c)) == TooLarge
  {
    hide Compressed, Expanded, WriteCrt, ReadCrt, PrunedCrt;
    var image := WriteCrt(c, false);
    ImageLength(c);
    CompressRoundTrip(image);
    CrtRoundTrip(c, false, []);
    assert image + [] == image;
  }

  /** Said against the player saved: item by item, wherever it is packed. */
  lemma PlayerComesBack(c: Creature, path: seq<nat>)
    requires Saveable(c) && |Saved(c)| < 30000
    ensures var r := LoadFrom(Saved(c));
      && r.Loaded? && CrtRestored(c, r.player, false)
      && var a, b := ObjectAt(c.inventory, path), ObjectAt(r.player.inventory, path);
         && (a.TheObject? <==> b.TheObject?)
         && (a.TheObject? ==> ObjRecRestored(a.o.rec, b.o.rec) && |a.o.contents| == |b.o.contents|)
  {
    hide LoadFrom, Saved, PrunedCrt, AllRestored, CrtRecRestored, ObjRecRestored, Saveable;
    SaveLoad(c);
    assert StorableCrt(c) by { SaveableStorable(c); }
    PrunedCrtRestored(c, false);
    PathsRestored(c.inventory, PrunedCrt(c, false).inventory, path);
  }

  lemma SaveableStorable(c: Creature)
    requires Saveable(c)
    ensures StorableCrt(c)
  {
  }

  lemma ImageLength(c: Creature)
    requires StorableCrt(c)
    ensures |WriteCrt(c, false)| >= CRT_SIZE + 4
  {
  }

  /** Nothing is pruned from a player: the item trees come back item for item. */
  lemma {:induction false} NothingPruned(os: seq<Object>)
    ensures |PrunedAll(os, false)| == |os|
    ensures forall i :: 0 <= i < |os| ==> PrunedAll(os, false)[i] == Pruned(os[i], false)
  {
    if os != [] { NothingPruned(os[1..]); }
  }

  method SavePly(codec: Codec, c: Creature) returns (file: seq<Byte>)
    requires codec.tab.Length == TABSIZE && codec.stack.Length == STACKSIZE
    requires Saveable(c)
    modifies codec, codec.tab
    ensures file == Saved(c)
  {
    hide Compressed, WriteCrt;
    var buf := new Byte[SAVE_BUFFER](_ => 0);
    var n := WriteCrtToMem(buf, 0, c, false);
    assert buf[..n] == WriteCrt(c, false);
    file := codec.Compress(buf[..n]);
  }

  method LoadPly(codec: Codec, file: seq<Byte>) returns (r: LoadResult)
    requires codec.tab.Length == TABSIZE && codec.stack.Length == STACKSIZE
    modifies codec, codec.tab, codec.stack
    ensures r == LoadFrom(file)
  {
    hide Expanded, ReadCrt;
    if |file| >= LOAD_LIMIT {
      return TooLarge;
    }
    if |file| < 1 {
      return EmptyFile;
    }
    var out := codec.Uncompress(file);
    if !out.Text? {
      return Corrupt;
    }
    if |out.bytes| > SAVE_BUFFER {
      return TooLarge;
    }
    if ReadCrt(out.bytes).PastEnd? {
      return Corrupt;
    }
    var buf := new Byte[|out.bytes|](i requires 0 <= i < |out.bytes| => out.bytes[i]);
    assert buf[..] == out.bytes;
    var n, c := ReadCrtFromMem(buf);
    r := Loaded(c);
  }

  /** The two routines one after the other. */
  method SaveThenLoad(codec: Codec, c: Creature) returns (r: LoadResult)
    requires codec.tab.Length == TABSIZE && codec.stack.Length == STACKSIZE
    requires Saveable(c)
    modifies codec, codec.tab, codec.stack
    ensures if |Saved(c)| < 30000 then r.Loaded? && CrtRestored(c, r.player, false) else r == TooLarge
  {
    hide LoadFrom, Saved, PrunedCrt, CrtRestored;
    if |Saved(c)| < 30000 { PlayerComesBack(c, []); }
    var file := SavePly(codec, c);
    SaveLoad(c);
    r := LoadPly(codec, file);
  }

  /** Files of 30000 bytes, empty files and files that expand to more than 80000
      bytes are refused; whatever is loaded was read from the expanded file. */
  lemma LoadErrors(file: seq<Byte>)
    ensures |file| >= 30000 ==> LoadFrom(file) == TooLarge
    ensures file == [] ==> LoadFrom(file) == EmptyFile
    ensures Expanded(file).Text? && |Expanded(file).bytes| > 80000 && file != [] ==> LoadFrom(file) == TooLarge
    ensures LoadFrom(file).Loaded? ==>
      Expanded(file).Text? && ReadCrt(Expanded(file).bytes).Read? && LoadFrom(file).player == ReadCrt(Expanded(file).bytes).value
  {
    hide Expanded, ReadCrt;
  }
}
