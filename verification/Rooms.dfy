/** Rooms as files: `write_rom` and `read_rom` of util/ed/editor3.c, whose
    object and creature routines write and read the same images as the memory
    routines of Trees. A file is the sequence of its bytes; a read past its end
    is what makes `read_rom` return -1. */
module Rooms {
  import opened Bytes
  import opened Records
  import opened Restoring
  import opened Trees

  const ROOM_LINKS: nat := 28
  const ROOM_SIZE: nat := ROOM_LINKS + 512
  const EXIT_SIZE: nat := 64

  type Image = seq<Byte>

  /** A description: none, or a C string, its final NUL left off. */
  datatype Desc = NoDesc | Desc(text: Image) {
    predicate Storable() { Desc? ==> 0 !in text && |text| < 0x7FFF_FFFF }
  }

  /** The players in a room are not part of its file. */
  datatype Room = Room(links: Image, rest: Image, exits: seq<Image>, monsters: seq<Creature>, items: seq<Object>,
                       short: Desc, long: Desc, objects: Desc)

  predicate StorableRoom(r: Room) {
    && |r.links| == ROOM_LINKS && |r.links + r.rest| == ROOM_SIZE
    && |r.exits| < 0x8000_0000 && (forall i :: 0 <= i < |r.exits| ==> |r.exits[i]| == EXIT_SIZE)
    && |r.monsters| < 0x8000_0000 && (forall i :: 0 <= i < |r.monsters| ==> StorableCrt(r.monsters[i]))
    && StorableAll(r.items)
    && r.short.Storable() && r.long.Storable() && r.objects.Storable()
  }

  // ----- what is written -----

  function WriteExits(xs: seq<Image>): Image {
    if xs == [] then [] else xs[0] + WriteExits(xs[1..])
  }

  predicate MonKept(c: Creature, permOnly: bool) { !permOnly || c.rec.permt }

  function CountMon(cs: seq<Creature>, permOnly: bool): (n: nat)
    ensures n <= |cs|
  {
    if cs == [] then 0 else (if MonKept(cs[0], permOnly) then 1 else 0) + CountMon(cs[1..], permOnly)
  }

  /** A monster that is written is written with all it carries. */
  function WriteMons(cs: seq<Creature>, permOnly: bool): Image
    requires forall i :: 0 <= i < |cs| ==> StorableCrt(cs[i])
  {
    if cs == [] then []
    else (if MonKept(cs[0], permOnly) then WriteCrt(cs[0], false) else []) + WriteMons(cs[1..], permOnly)
  }

  function WriteDesc(d: Desc): Image
    requires d.Storable()
  {
    match d case NoDesc => IntBytes(0) case Desc(t) => IntBytes(|t| + 1) + (t + [0])
  }

  function WriteDescs(r: Room): Image
    requires StorableRoom(r)
  {
    WriteDesc(r.short) + (WriteDesc(r.long) + WriteDesc(r.objects))
  }

  function WriteItems(r: Room, permOnly: bool): Image
    requires StorableRoom(r)
  {
    IntBytes(CountKept(r.items, permOnly)) + WriteList(r.items, permOnly)
  }

  function WriteMonsters(r: Room, permOnly: bool): Image
    requires StorableRoom(r)
  {
    IntBytes(CountMon(r.monsters, permOnly)) + WriteMons(r.monsters, permOnly)
  }

  function WriteRoom(r: Room, permOnly: bool): Image
    requires StorableRoom(r)
  {
    (r.links + r.rest) + ((IntBytes(|r.exits|) + WriteExits(r.exits))
      + (WriteMonsters(r, permOnly) + (WriteItems(r, permOnly) + WriteDescs(r))))
  }

  // ----- what comes back -----

  function PrunedMons(cs: seq<Creature>, permOnly: bool): seq<Creature> {
    if cs == [] then []
    else (if MonKept(cs[0], permOnly) then [PrunedCrt(cs[0], false)] else []) + PrunedMons(cs[1..], permOnly)
  }

  function PrunedRoom(r: Room, permOnly: bool): Room {
    r.(links := Zeros(ROOM_LINKS), monsters := PrunedMons(r.monsters, permOnly), items := PrunedAll(r.items, permOnly))
  }

  function ReadExits(s: Image, k: nat): (r: Reading<seq<Image>>)
    ensures r.Read? ==> r.size <= |s|
    decreases k
  {
    if k == 0 then Read([], 0)
    else if |s| < EXIT_SIZE then PastEnd
    else match ReadExits(s[EXIT_SIZE..], k - 1)
      case Read(xs, n) => Read([s[..EXIT_SIZE]] + xs, EXIT_SIZE + n)
      case PastEnd => PastEnd
  }

  function ReadMons(s: Image, k: nat): (r: Reading<seq<Creature>>)
    ensures r.Read? ==> r.size <= |s|
    decreases k
  {
    if k == 0 then Read([], 0)
    else match ReadCrt(s)
      case Read(c, n) =>
        (match ReadMons(s[n..], k - 1)
         case Read(cs, m) => Read([c] + cs, n + m)
         case PastEnd => PastEnd)
      case PastEnd => PastEnd
  }

  /** The bytes before the first NUL. */
  function UpToNul(s: Image): Image {
    if s == [] || s[0] == 0 then [] else [s[0]] + UpToNul(s[1..])
  }

  function ReadDesc(s: Image): (r: Reading<Desc>)
    ensures r.Read? ==> r.size <= |s|
  {
    if |s| < 4 then PastEnd else
      var n := IntAt(s, 0);
      if n == 0 then Read(NoDesc, 4)
      else if n < 0 || |s| < 4 + n then PastEnd
      else Read(Desc(UpToNul(s[4..4 + n])), 4 + n)
  }

  /** A count and that many elements, by a reader for the elements. */
  function ReadCounted<T>(s: Image, elements: (Image, nat) -> Reading<seq<T>>): Reading<seq<T>> {
    if |s| < 4 then PastEnd else
      match elements(s[4..], Count(IntAt(s, 0)))
      case Read(xs, n) => Read(xs, 4 + n)
      case PastEnd => PastEnd
  }

  function Rest(s: Image, n: nat): Image { if n <= |s| then s[n..] else [] }

  function ReadDescs(s: Image, links: Image, rest: Image, xs: seq<Image>, cs: seq<Creature>, os: seq<Object>): Reading<Room> {
    var a := ReadDesc(s);
    if a.PastEnd? then PastEnd else
      var b := ReadDesc(Rest(s, a.size));
      if b.PastEnd? then PastEnd else
        var c := ReadDesc(Rest(s, a.size + b.size));
        if c.PastEnd? then PastEnd
        else Read(Room(links, rest, xs, cs, os, a.value, b.value, c.value), a.size + b.size + c.size)
  }

  function ReadContents(s: Image, links: Image, rest: Image, xs: seq<Image>): Reading<Room> {
    var cs := ReadCounted(s, (t, k) => ReadMons(t, k));
    if cs.PastEnd? then PastEnd else
      var os := ReadCounted(Rest(s, cs.size), (t, k) => ReadList(t, k));
      if os.PastEnd? then PastEnd else
        match ReadDescs(Rest(s, cs.size + os.size), links, rest, xs, cs.value, os.value)
        case Read(r, n) => Read(r, cs.size + os.size + n)
        case PastEnd => PastEnd
  }

  function ReadRoom(s: Image): Reading<Room> {
    if |s| < ROOM_SIZE then PastEnd else
      var t := s[ROOM_SIZE..];
      var xs := ReadCounted(t, (u, k) => ReadExits(u, k));
      if xs.PastEnd? then PastEnd else
        match ReadContents(Rest(t, xs.size), Zeros(ROOM_LINKS), s[ROOM_LINKS..ROOM_SIZE], xs.value)
        case Read(r, n) => Read(r, ROOM_SIZE + xs.size + n)
        case PastEnd => PastEnd
  }

  // ----- the round trip -----

  lemma {:induction false} ExitsRoundTrip(xs: seq<Image>, tail: Image)
    requires forall i :: 0 <= i < |xs| ==> |xs[i]| == EXIT_SIZE
    ensures ReadExits(WriteExits(xs) + tail, |xs|) == Read(xs, |WriteExits(xs)|)
  {
    if xs != [] {
      var rest := WriteExits(xs[1..]);
      ExitsRoundTrip(xs[1..], tail);
      var s := WriteExits(xs) + tail;
      assert s == xs[0] + (rest + tail);
      assert s[..EXIT_SIZE] == xs[0] && s[EXIT_SIZE..] == rest + tail;
      assert xs == [xs[0]] + xs[1..];
    }
  }

  lemma MonRead(c: Creature, rest: Image, k: nat)
    requires StorableCrt(c)
    ensures ReadMons(WriteCrt(c, false) + rest, k + 1) ==
      match ReadMons(rest, k)
      case Read(cs, m) => Read([PrunedCrt(c, false)] + cs, |WriteCrt(c, false)| + m)
      case PastEnd => PastEnd
  {
    hide WriteCrt, ReadCrt, PrunedCrt, StorableCrt;
    var w := WriteCrt(c, false);
    CrtRoundTrip(c, false, rest);
    assert (w + rest)[|w|..] == rest;
  }

  lemma {:induction false} MonsRoundTrip(cs: seq<Creature>, permOnly: bool, tail: Image)
    requires forall i :: 0 <= i < |cs| ==> StorableCrt(cs[i])
    ensures ReadMons(WriteMons(cs, permOnly) + tail, CountMon(cs, permOnly))
         == Read(PrunedMons(cs, permOnly), |WriteMons(cs, permOnly)|)
  {
    hide WriteCrt, ReadCrt, PrunedCrt, StorableCrt;
    if cs == [] {
      assert ReadMons([] + tail, 0) == Read([], 0);
    } else {
      hide ReadMons;
      MonsRoundTrip(cs[1..], permOnly, tail);
      if MonKept(cs[0], permOnly) {
        var w, rest := WriteCrt(cs[0], false), WriteMons(cs[1..], permOnly);
        MonRead(cs[0], rest + tail, CountMon(cs[1..], permOnly));
        assert w + rest + tail == w + (rest + tail);
      } else {
        assert WriteMons(cs, permOnly) == WriteMons(cs[1..], permOnly);
        assert PrunedMons(cs, permOnly) == PrunedMons(cs[1..], permOnly);
      }
    }
  }

  lemma {:induction false} UpToNulEnds(t: Image)
    requires 0 !in t
    ensures UpToNul(t + [0]) == t
  {
    if t == [] {
      assert t + [0] == [0];
    } else {
      assert (t + [0])[1..] == t[1..] + [0];
      UpToNulEnds(t[1..]);
    }
  }

  lemma DescRoundTrip(d: Desc, tail: Image)
    requires d.Storable()
    ensures ReadDesc(WriteDesc(d) + tail) == Read(d, |WriteDesc(d)|)
  {
    hide IntBytes, IntAt;
    var s := WriteDesc(d) + tail;
    if d.Desc? {
      var n := |d.text| + 1;
      assert s[0..4] == IntBytes(n);
      IntRoundTrip(n, s, 0);
      assert s[4..4 + n] == d.text + [0];
      UpToNulEnds(d.text);
    } else {
      assert s[0..4] == IntBytes(0);
      IntRoundTrip(0, s, 0);
    }
  }

  lemma CountedRoundTrip<T>(n: nat, w: Image, tail: Image, elements: (Image, nat) -> Reading<seq<T>>, xs: seq<T>)
    requires n < 0x8000_0000 && elements(w + tail, n) == Read(xs, |w|)
    ensures ReadCounted(IntBytes(n) + w + tail, elements) == Read(xs, |IntBytes(n) + w|)
  {
    hide IntBytes, IntAt;
    var s := IntBytes(n) + w + tail;
    assert s[0..4] == IntBytes(n) && s[4..] == w + tail;
    IntRoundTrip(n, s, 0);
  }

  lemma RestAppend(w: Image, t: Image)
    ensures Rest(w + t, |w|) == t
  {
  }

  lemma DescsRoundTrip(r: Room, tail: Image, links: Image, xs: seq<Image>, cs: seq<Creature>, os: seq<Object>)
    requires StorableRoom(r)
    ensures ReadDescs(WriteDescs(r) + tail, links, r.rest, xs, cs, os)
         == Read(Room(links, r.rest, xs, cs, os, r.short, r.long, r.objects), |WriteDescs(r)|)
  {
    hide WriteDesc, ReadDesc, Rest;
    var a, b, c := WriteDesc(r.short), WriteDesc(r.long), WriteDesc(r.objects);
    var s := WriteDescs(r) + tail;
    assert s == a + (b + (c + tail));
    RestAppend(a, b + (c + tail));
    assert s == (a + b) + (c + tail);
    RestAppend(a + b, c + tail);
    DescRoundTrip(r.short, b + (c + tail));
    DescRoundTrip(r.long, c + tail);
    DescRoundTrip(r.objects, tail);
  }

  lemma ContentsRoundTrip(r: Room, permOnly: bool, tail: Image, links: Image)
    requires StorableRoom(r)
    ensures var w := WriteMonsters(r, permOnly) + (WriteItems(r, permOnly) + WriteDescs(r));
      ReadContents(w + tail, links, r.rest, r.exits) == Read(PrunedRoom(r, permOnly).(links := links), |w|)
  {
    hide WriteMons, ReadMons, PrunedMons, WriteList, ReadList, PrunedAll, IntBytes, IntAt;
    hide WriteDescs, ReadDescs, ReadCounted, Rest, StorableCrt, Storable;
    var a, b, c := WriteMonsters(r, permOnly), WriteItems(r, permOnly), WriteDescs(r);
    var s := a + (b + c) + tail;
    assert s == a + (b + (c + tail));
    RestAppend(a, b + (c + tail));
    assert s == (a + b) + (c + tail);
    RestAppend(a + b, c + tail);
    MonsRoundTrip(r.monsters, permOnly, b + (c + tail));
    CountedRoundTrip(CountMon(r.monsters, permOnly), WriteMons(r.monsters, permOnly), b + (c + tail),
                     (t, k) => ReadMons(t, k), PrunedMons(r.monsters, permOnly));
    ListRoundTrip(r.items, permOnly, c + tail);
    CountedRoundTrip(CountKept(r.items, permOnly), WriteList(r.items, permOnly), c + tail,
                     (t, k) => ReadList(t, k), PrunedAll(r.items, permOnly));
    DescsRoundTrip(r, tail, links, r.exits, PrunedMons(r.monsters, permOnly), PrunedAll(r.items, permOnly));
  }

  /** Reading a room file back gives the room without its temporary monsters and
      items, each monster kept having everything it carried. */
  lemma RoomRoundTrip(r: Room, permOnly: bool, tail: Image)
    requires StorableRoom(r)
    ensures ReadRoom(WriteRoom(r, permOnly) + tail) == Read(PrunedRoom(r, permOnly), |WriteRoom(r, permOnly)|)
  {
    hide WriteMonsters, WriteItems, WriteDescs, ReadContents, PrunedRoom, IntBytes, IntAt, ReadExits, WriteExits, ReadCounted, StorableCrt, Storable;
    var head, x := r.links + r.rest, IntBytes(|r.exits|) + WriteExits(r.exits);
    var w := WriteMonsters(r, permOnly) + (WriteItems(r, permOnly) + WriteDescs(r));
    var s := WriteRoom(r, permOnly) + tail;
    assert s == head + (x + (w + tail));
    assert s[ROOM_SIZE..] == x + (w + tail) && s[ROOM_LINKS..ROOM_SIZE] == r.rest;
    assert (x + (w + tail))[|x|..] == w + tail;
    ExitsRoundTrip(r.exits, w + tail);
    CountedRoundTrip(|r.exits|, WriteExits(r.exits), w + tail, (u, k) => ReadExits(u, k), r.exits);
    ContentsRoundTrip(r, permOnly, tail, Zeros(ROOM_LINKS));
    PrunedLinks(r, permOnly);
  }

  lemma PrunedLinks(r: Room, permOnly: bool)
    ensures PrunedRoom(r, permOnly).(links := Zeros(ROOM_LINKS)) == PrunedRoom(r, permOnly)
  {
  }
  // ----- what comes back, said against the room saved -----

  /** Monsters that are permanent, or all of them, each with all it carries. */
  predicate MonstersRestored(saved: seq<Creature>, loaded: seq<Creature>, permOnly: bool) {
    if saved == [] then loaded == []
    else if permOnly && !saved[0].rec.permt then MonstersRestored(saved[1..], loaded, permOnly)
    else loaded != [] && CrtRestored(saved[0], loaded[0], false) && MonstersRestored(saved[1..], loaded[1..], permOnly)
  }

  predicate RoomRestored(saved: Room, loaded: Room, permOnly: bool) {
    && loaded.rest == saved.rest && loaded.exits == saved.exits && |loaded.links| == |saved.links| && Cleared(loaded.links)
    && loaded.short == saved.short && loaded.long == saved.long && loaded.objects == saved.objects
    && MonstersRestored(saved.monsters, loaded.monsters, permOnly)
    && AllRestored(saved.items, loaded.items, permOnly)
  }

  lemma {:induction false} MonsRestored(cs: seq<Creature>, permOnly: bool)
    requires forall i :: 0 <= i < |cs| ==> StorableCrt(cs[i])
    ensures MonstersRestored(cs, PrunedMons(cs, permOnly), permOnly)
  {
    hide CrtRestored, PrunedCrt, StorableCrt;
    if cs != [] {
      MonsRestored(cs[1..], permOnly);
      PrunedCrtRestored(cs[0], false);
      if MonKept(cs[0], permOnly) {
        assert PrunedMons(cs, permOnly)[1..] == PrunedMons(cs[1..], permOnly);
      } else {
        assert PrunedMons(cs, permOnly) == PrunedMons(cs[1..], permOnly);
      }
    }
  }

  lemma RoomComesBack(r: Room, permOnly: bool, tail: Image)
    requires StorableRoom(r)
    ensures var x := ReadRoom(WriteRoom(r, permOnly) + tail);
      x.Read? && x.size == |WriteRoom(r, permOnly)| && RoomRestored(r, x.value, permOnly)
  {
    hide ReadRoom, WriteRoom, PrunedMons, PrunedAll, MonstersRestored, AllRestored, StorableCrt, Storable;
    RoomRoundTrip(r, permOnly, tail);
    MonsRestored(r.monsters, permOnly);
    AllPrunedRestored(r.items, permOnly);
  }
}
