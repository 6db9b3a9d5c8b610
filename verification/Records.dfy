/** The memory images of the fixed records that player and room files are made
    of. mstruct.h is not part of this model: the fields the routines look at
    are named here, in an order of this model's own, and everything else a
    record holds is carried as opaque bytes of fixed length. */
module Records {
  import opened Bytes

  type Short = n: int | -0x8000 <= n < 0x8000

  /** Two's-complement, least significant byte first. */
  function ShortBytes(n: Short): (s: seq<Byte>)
    ensures |s| == 2
  {
    var u := n % 0x1_0000;
    [u % 256, u / 256]
  }

  function ShortAt(s: seq<Byte>, k: nat): Short
    requires k + 2 <= |s|
  {
    var a: int, b: int := s[k], s[k + 1];
    var u := a + 256 * b;
    if u < 0x8000 then u else u - 0x1_0000
  }

  /** A C `int`: 32 bits. */
  type Int32 = n: int | -0x8000_0000 <= n < 0x8000_0000

  function IntBytes(n: Int32): (s: seq<Byte>)
    ensures |s| == 4
  {
    var u := n % 0x1_0000_0000;
    var v := u / 256;
    var w := v / 256;
    [u % 256, v % 256, w % 256, w / 256]
  }

  function IntAt(s: seq<Byte>, k: nat): Int32
    requires k + 4 <= |s|
  {
    var a: int, b: int, c: int, d: int := s[k], s[k + 1], s[k + 2], s[k + 3];
    var u := a + 0x100 * b + 0x1_0000 * c + 0x100_0000 * d;
    if u < 0x8000_0000 then u else u - 0x1_0000_0000
  }

  lemma ShortRoundTrip(n: Short, s: seq<Byte>, k: nat)
    requires k + 2 <= |s| && s[k..k + 2] == ShortBytes(n)
    ensures ShortAt(s, k) == n
  {
    assert s[k] == s[k..k + 2][0] && s[k + 1] == s[k..k + 2][1];
  }

  lemma IntRoundTrip(n: Int32, s: seq<Byte>, k: nat)
    requires k + 4 <= |s| && s[k..k + 4] == IntBytes(n)
    ensures IntAt(s, k) == n
  {
    var t := s[k..k + 4];
    assert s[k] == t[0] && s[k + 1] == t[1] && s[k + 2] == t[2] && s[k + 3] == t[3];
    var u := n % 0x1_0000_0000;
    var v := u / 256;
    var w := v / 256;
    assert w == w % 256 + 256 * (w / 256) && v == v % 256 + 256 * w && u == u % 256 + 256 * v;
  }

  /** The four link fields of an object, and its remaining bytes. */
  const OBJ_LINKS: nat := 16
  const OBJ_REST: nat := 256
  const OBJ_SIZE: nat := 5 + OBJ_LINKS + OBJ_REST

  /** `permt` and `perm2` are the OPERMT and OPERM2 flags. */
  datatype ObjRec = ObjRec(shotscur: Short, shotsmax: Short, permt: bool, perm2: bool,
                           links: seq<Byte>, rest: seq<Byte>)
  {
    predicate Sized() { |links| == OBJ_LINKS && |rest| == OBJ_REST }
  }

  function FlagByte(a: bool, b: bool): Byte {
    (if a then 1 else 0) + (if b then 2 else 0)
  }

  function ObjImage(r: ObjRec): (s: seq<Byte>)
    requires r.Sized()
    ensures |s| == OBJ_SIZE
  {
    ShortBytes(r.shotscur) + ShortBytes(r.shotsmax) + [FlagByte(r.permt, r.perm2)] + r.links + r.rest
  }

  function ObjFrom(s: seq<Byte>): (r: ObjRec)
    requires |s| == OBJ_SIZE
    ensures r.Sized()
  {
    ObjRec(ShortAt(s, 0), ShortAt(s, 2), s[4] % 2 == 1, (s[4] / 2) % 2 == 1,
           s[5..5 + OBJ_LINKS], s[5 + OBJ_LINKS..])
  }

  lemma ObjImageRoundTrip(r: ObjRec)
    requires r.Sized()
    ensures ObjFrom(ObjImage(r)) == r
  {
    var s := ObjImage(r);
    assert s[0..2] == ShortBytes(r.shotscur) && s[2..4] == ShortBytes(r.shotsmax);
    ShortRoundTrip(r.shotscur, s, 0);
    ShortRoundTrip(r.shotsmax, s, 2);
    assert s[5..5 + OBJ_LINKS] == r.links && s[5 + OBJ_LINKS..] == r.rest;
  }

  /** The link fields of a creature, `ready[20]` included, and its remaining bytes. */
  const CRT_LINKS: nat := 100
  const CRT_REST: nat := 1024
  const CRT_SIZE: nat := 9 + CRT_LINKS + CRT_REST

  datatype CrtRec = CrtRec(hpcur: Short, hpmax: Short, mpcur: Short, mpmax: Short, permt: bool,
                           links: seq<Byte>, rest: seq<Byte>)
  {
    predicate Sized() { |links| == CRT_LINKS && |rest| == CRT_REST }
  }

  function CrtImage(r: CrtRec): (s: seq<Byte>)
    requires r.Sized()
    ensures |s| == CRT_SIZE
  {
    ShortBytes(r.hpcur) + ShortBytes(r.hpmax) + ShortBytes(r.mpcur) + ShortBytes(r.mpmax)
      + [FlagByte(r.permt, false)] + r.links + r.rest
  }

  function CrtFrom(s: seq<Byte>): (r: CrtRec)
    requires |s| == CRT_SIZE
    ensures r.Sized()
  {
    CrtRec(ShortAt(s, 0), ShortAt(s, 2), ShortAt(s, 4), ShortAt(s, 6), s[8] % 2 == 1,
           s[9..9 + CRT_LINKS], s[9 + CRT_LINKS..])
  }

  lemma CrtImageRoundTrip(r: CrtRec)
    requires r.Sized()
    ensures CrtFrom(CrtImage(r)) == r
  {
    var s := CrtImage(r);
    assert s[0..2] == ShortBytes(r.hpcur) && s[2..4] == ShortBytes(r.hpmax);
    assert s[4..6] == ShortBytes(r.mpcur) && s[6..8] == ShortBytes(r.mpmax);
    ShortRoundTrip(r.hpcur, s, 0);
    ShortRoundTrip(r.hpmax, s, 2);
    ShortRoundTrip(r.mpcur, s, 4);
    ShortRoundTrip(r.mpmax, s, 6);
    assert s[9..9 + CRT_LINKS] == r.links && s[9 + CRT_LINKS..] == r.rest;
  }

  function Zeros(n: nat): (s: seq<Byte>)
    ensures |s| == n
  {
    seq(n, i => 0)
  }

  /** What reading a record does to it: links are cleared, and the current
      shots, hit points and magic points are cut down to their maximum. */
  function LoadedObj(r: ObjRec): ObjRec {
    r.(links := Zeros(OBJ_LINKS), shotscur := if r.shotscur > r.shotsmax then r.shotsmax else r.shotscur)
  }

  function LoadedCrt(r: CrtRec): CrtRec {
    r.(links := Zeros(CRT_LINKS),
       mpcur := if r.mpcur > r.mpmax then r.mpmax else r.mpcur,
       hpcur := if r.hpcur > r.hpmax then r.hpmax else r.hpcur)
  }
}
