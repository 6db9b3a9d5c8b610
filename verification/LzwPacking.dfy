/** Twelve-bit codes in bytes: `putcode`, `flushout` and `getcode` of
    util/ed/compress.c, which carry a nibble from one call to the next. */
module LzwPacking {
  import opened Bytes
  import opened LzwTable
  import opened LzwCodec

  /** The carry when no nibble is held over. */
  const EMPTY: nat := 0xFFFF

  predicate Carry(n: nat) { n == EMPTY || n < 16 }

  /** The bytes `putcode` writes, and the nibble it keeps. */
  function PutBytes(carry: nat, code: nat): seq<Byte>
    requires Carry(carry)
  {
    if carry == EMPTY then [(code / 16) % 256]
    else [carry * 16 + (code / 256) % 16, code % 256]
  }

  function PutCarry(carry: nat, code: nat): (r: nat)
    ensures Carry(r)
  {
    if carry == EMPTY then code % 16 else EMPTY
  }

  /** `flushout` */
  function FlushBytes(carry: nat): seq<Byte>
    requires Carry(carry)
  {
    if carry == EMPTY then [] else [carry * 16]
  }

  function PackFrom(carry: nat, codes: seq<nat>): seq<Byte>
    requires Carry(carry)
    decreases |codes|
  {
    if codes == [] then FlushBytes(carry)
    else PutBytes(carry, codes[0]) + PackFrom(PutCarry(carry, codes[0]), codes[1..])
  }

  function Pack(codes: seq<nat>): seq<Byte> {
    PackFrom(EMPTY, codes)
  }

  /** Repeated `getcode` until it reports the end of the input. */
  function UnpackFrom(carry: nat, bytes: seq<Byte>): (codes: seq<nat>)
    requires Carry(carry)
    ensures Codes(codes)
    decreases |bytes|
  {
    if carry == EMPTY then
      if |bytes| < 2 then []
      else [bytes[0] * 16 + bytes[1] / 16] + UnpackFrom(bytes[1] % 16, bytes[2..])
    else
      if |bytes| < 1 then []
      else [carry * 256 + bytes[0]] + UnpackFrom(EMPTY, bytes[1..])
  }

  lemma UnpackStep(carry: nat, bytes: seq<Byte>)
    requires Carry(carry)
    ensures UnpackFrom(carry, bytes) ==
      if |bytes| < (if carry == EMPTY then 2 else 1) then []
      else if carry == EMPTY then [bytes[0] * 16 + bytes[1] / 16] + UnpackFrom(bytes[1] % 16, bytes[2..])
      else [carry * 256 + bytes[0]] + UnpackFrom(EMPTY, bytes[1..])
  {
  }

  function Unpack(bytes: seq<Byte>): (codes: seq<nat>)
    ensures Codes(codes)
  {
    UnpackFrom(EMPTY, bytes)
  }

  lemma PackOne(a: nat)
    requires a < TABSIZE
    ensures Pack([a]) == [a / 16, a % 16 * 16]
    ensures Unpack(Pack([a])) == [a]
  {
    assert [a][1..] == [];
    assert PackFrom(a % 16, []) == [a % 16 * 16];
    assert UnpackFrom(0, Pack([a])[2..]) == [];
  }

  /** The second code of a pair ends on a byte boundary. */
  lemma PackTwo(a: nat, b: nat, rest: seq<nat>)
    requires a < TABSIZE && b < TABSIZE
    ensures Pack([a, b] + rest) == [a / 16, a % 16 * 16 + b / 256, b % 256] + Pack(rest)
    ensures Unpack(Pack([a, b] + rest)) == [a, b] + Unpack(Pack(rest))
  {
    var codes := [a, b] + rest;
    var p := [a / 16, a % 16 * 16 + b / 256, b % 256] + Pack(rest);
    assert codes[1..] == [b] + rest && codes[1..][1..] == rest;
    assert PackFrom(a % 16, codes[1..]) == [a % 16 * 16 + b / 256, b % 256] + Pack(rest);
    assert Pack(codes) == p;
    assert p[2..] == [b % 256] + Pack(rest) && p[2..][1..] == Pack(rest);
    assert UnpackFrom(b / 256, p[2..]) == [b] + Unpack(Pack(rest));
  }

  /** Unpacking undoes packing, whatever the number of codes, and n codes take
      3n/2 bytes, rounded up. */
  lemma {:induction false} PackRoundTrip(codes: seq<nat>)
    requires Codes(codes)
    ensures Unpack(Pack(codes)) == codes
    ensures |Pack(codes)| == (3 * |codes| + 1) / 2
  {
    hide PackFrom, UnpackFrom;
    if codes == [] {
      EmptyPack();
    } else if |codes| == 1 {
      assert codes == [codes[0]];
      PackOne(codes[0]);
    } else {
      assert codes == [codes[0], codes[1]] + codes[2..];
      PackRoundTrip(codes[2..]);
      PackTwo(codes[0], codes[1], codes[2..]);
    }
  }

  lemma EmptyPack()
    ensures Pack([]) == [] && Unpack([]) == []
  {
  }

  // ----- the whole compressor and expander -----

  function Compressed(x: seq<Byte>): seq<Byte> {
    hide Encode;
    Pack(Encode(x))
  }

  function Expanded(bytes: seq<Byte>): Outcome {
    hide Decode;
    Decode(Unpack(bytes))
  }

  /** `uncompress` undoes `compress` exactly if there is something to compress:
      an empty input comes back as the single byte 255. The compressed form
      is never longer than one and a half times the input, rounded up. */
  lemma CompressRoundTrip(x: seq<Byte>)
    ensures Expanded(Compressed(x)) == Text(x) <==> x != []
    ensures x == [] ==> Expanded(Compressed(x)) == Text([255])
    ensures 2 <= |Compressed(x)|
    ensures x != [] ==> |Compressed(x)| <= (3 * |x| + 1) / 2
  {
    hide Encode, Decode;
    CodesRoundTrip(x);
    PackRoundTrip(Encode(x));
  }
}
