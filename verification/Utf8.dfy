/** The part of Go's unicode/utf8 that the line discipline calls, after the
    well-formed sequences of section 4 of RFC 3629. */
module Utf8 {
  import opened Bytes

  type Rune = r: int | 0 <= r <= 0x10FFFF

  const RUNE_ERROR: Rune := 0xFFFD

  predicate IsScalar(r: Rune) { r < 0xD800 || 0xE000 <= r }

  /** Bytes in the encoding that starts with b; 0 if none does. */
  function Need(b: Byte): nat {
    if b < 0x80 then 1
    else if b < 0xC2 then 0
    else if b < 0xE0 then 2
    else if b < 0xF0 then 3
    else if b < 0xF5 then 4
    else 0
  }

  /** The second bytes that may follow b. */
  predicate Second(b: Byte, c: Byte) {
    (if b == 0xE0 then 0xA0 else if b == 0xF0 then 0x90 else 0x80) <= c
    <= (if b == 0xED then 0x9F else if b == 0xF4 then 0x8F else 0xBF)
  }

  predicate Cont(b: Byte) { 0x80 <= b <= 0xBF }

  /** `utf8.FullRune`: p starts with a whole encoding or with an invalid byte. */
  predicate FullRune(p: seq<Byte>) {
    p != [] &&
    (|p| >= Need(p[0]) || (|p| > 1 && !Second(p[0], p[1])) || (|p| > 2 && !Cont(p[2])))
  }

  datatype Decoded = Decoded(rune: Rune, size: nat)

  const INVALID := Decoded(RUNE_ERROR, 1)

  /** `utf8.DecodeRune` */
  function DecodeRune(p: seq<Byte>): (d: Decoded)
    requires p != []
    ensures 1 <= d.size <= |p| && d.size <= 4
    ensures d != INVALID ==> IsScalar(d.rune) && d.size == RuneLen(d.rune) == Need(p[0])
  {
    var n := Need(p[0]);
    var b0: int := p[0];
    if n == 0 then INVALID
    else if n == 1 then Decoded(b0, 1)
    else if |p| < n || !Second(p[0], p[1]) then INVALID
    else
      var b1: int := p[1];
      if n == 2 then Decoded((b0 - 0xC0) * 64 + (b1 - 0x80), 2)
      else if !Cont(p[2]) then INVALID
      else
        var b2: int := p[2];
        if n == 3 then Decoded((b0 - 0xE0) * 4096 + (b1 - 0x80) * 64 + (b2 - 0x80), 3)
        else if !Cont(p[3]) then INVALID
        else
          var b3: int := p[3];
          Decoded((b0 - 0xF0) * 262144 + (b1 - 0x80) * 4096 + (b2 - 0x80) * 64 + (b3 - 0x80), 4)
  }

  /** `runeLen`: a value with no encoding would be written as U+FFFD. */
  function RuneLen(r: Rune): (n: nat)
    ensures 1 <= n <= 4
  {
    if r <= 0x7F then 1
    else if r <= 0x7FF then 2
    else if 0xD800 <= r <= 0xDFFF then 3
    else if r <= 0xFFFF then 3
    else 4
  }

  /** The UTF-8 encoding of a scalar value. */
  function Encode(r: Rune): (s: seq<Byte>)
    requires IsScalar(r)
    ensures |s| == RuneLen(r)
  {
    var q := r / 64;
    var p := q / 64;
    if r <= 0x7F then [r]
    else if r <= 0x7FF then [0xC0 + q, 0x80 + r % 64]
    else if r <= 0xFFFF then [0xE0 + p, 0x80 + q % 64, 0x80 + r % 64]
    else [0xF0 + p / 64, 0x80 + p % 64, 0x80 + q % 64, 0x80 + r % 64]
  }

  /** An encoding is recognised at its last byte and not before, and decodes to
      its rune. */
  lemma EncodeDecodes(r: Rune)
    requires IsScalar(r)
    ensures FullRune(Encode(r)) && DecodeRune(Encode(r)) == Decoded(r, RuneLen(r))
    ensures forall k :: 0 < k < RuneLen(r) ==> !FullRune(Encode(r)[..k])
  {
    if r <= 0xFFFF { EncodeDecodesShort(r); } else { EncodeDecodesLong(r); }
  }

  lemma EncodeDecodesShort(r: Rune)
    requires IsScalar(r) && r <= 0xFFFF
    ensures FullRune(Encode(r)) && DecodeRune(Encode(r)) == Decoded(r, RuneLen(r))
    ensures forall k :: 0 < k < RuneLen(r) ==> !FullRune(Encode(r)[..k])
  {
    var s := Encode(r);
    assert Need(s[0]) == |s|;
    if |s| >= 2 { assert Second(s[0], s[1]); }
    if |s| >= 3 { assert Cont(s[2]); }
  }

  lemma EncodeDecodesLong(r: Rune)
    requires 0xFFFF < r
    ensures FullRune(Encode(r)) && DecodeRune(Encode(r)) == Decoded(r, RuneLen(r))
    ensures forall k :: 0 < k < RuneLen(r) ==> !FullRune(Encode(r)[..k])
  {
    var s := Encode(r);
    var q := r / 64;
    var p := q / 64;
    assert 16 <= p <= 0x10F && r == 64 * q + r % 64 && q == 64 * p + q % 64 && p == 64 * (p / 64) + p % 64;
    assert s[0] <= 0xF4;
    assert Second(s[0], s[1]) && Cont(s[2]) && Cont(s[3]);
  }

  /** What FullRune settles, further bytes do not change. */
  lemma DecodeStable(p: seq<Byte>, rest: seq<Byte>)
    requires FullRune(p)
    ensures FullRune(p + rest) && DecodeRune(p + rest) == DecodeRune(p)
  {
  }
  // ----- exactly the encodings -----

  /** What is accepted is an encoding, so no overlong or surrogate form is. */
  lemma DecodeEncodes(p: seq<Byte>)
    requires p != [] && DecodeRune(p) != INVALID
    ensures var d := DecodeRune(p); IsScalar(d.rune) && Encode(d.rune) == p[..d.size]
  {
    var n := Need(p[0]);
    if n == 4 {
      DecodeEncodesLong(p);
    } else if n == 3 {
      var a: int, b: int, c: int := p[0] as int - 0xE0, p[1] as int - 0x80, p[2] as int - 0x80;
      var r := a * 4096 + b * 64 + c;
      assert r / 64 == a * 64 + b && r % 64 == c && (a * 64 + b) / 64 == a && (a * 64 + b) % 64 == b;
      assert p[..3] == [p[0], p[1], p[2]];
    } else if n == 2 {
      var a: int, b: int := p[0] as int - 0xC0, p[1] as int - 0x80;
      assert (a * 64 + b) / 64 == a && (a * 64 + b) % 64 == b;
      assert p[..2] == [p[0], p[1]];
    }
  }

  lemma DecodeEncodesLong(p: seq<Byte>)
    requires p != [] && DecodeRune(p) != INVALID && Need(p[0]) == 4
    ensures var d := DecodeRune(p); Encode(d.rune) == p[..d.size]
  {
    var a: int, b: int, c: int, e: int := p[0] as int - 0xF0, p[1] as int - 0x80, p[2] as int - 0x80, p[3] as int - 0x80;
    var q := a * 4096 + b * 64 + c;
    var r := q * 64 + e;
    assert r == a * 262144 + b * 4096 + c * 64 + e;
    assert r / 64 == q && r % 64 == e;
    assert q / 64 == a * 64 + b && q % 64 == c && (a * 64 + b) / 64 == a && (a * 64 + b) % 64 == b;
    assert p[..4] == [p[0], p[1], p[2], p[3]];
  }

  /** Bytes are waited for exactly as long as they begin an encoding and are not
      all of it yet. */
  lemma WaitsForEncodings(p: seq<Byte>)
    requires p != []
    ensures !FullRune(p) <==> exists r: Rune :: IsScalar(r) && p < Encode(r)
  {
    if !FullRune(p) {
      var q := Completion(p);
      DecodeEncodes(q);
      assert q[..|q|] == q;
      var r := DecodeRune(q).rune;
      assert IsScalar(r) && p < Encode(r);
    }
    forall r: Rune | IsScalar(r) && p < Encode(r) ensures !FullRune(p) {
      EncodeDecodes(r);
      assert p == Encode(r)[..|p|];
    }
  }

  /** The least bytes that complete an encoding. */
  function Completion(p: seq<Byte>): (q: seq<Byte>)
    requires p != [] && !FullRune(p)
    ensures p < q && DecodeRune(q) != INVALID && DecodeRune(q).size == |q|
  {
    var second: Byte := if |p| > 1 then p[1] else if p[0] == 0xE0 then 0xA0 else if p[0] == 0xF0 then 0x90 else 0x80;
    var n := Need(p[0]);
    if n == 2 then [p[0], second]
    else if n == 3 then [p[0], second, 0x80]
    else [p[0], second, if |p| > 2 then p[2] else 0x80, 0x80]
  }

  /** Encodings of each length, from the examples in section 7 of RFC 3629. */
  lemma KnownEncodings()
    ensures Encode(0x41) == [0x41] && Encode(0x391) == [0xCE, 0x91]
    ensures Encode(0xD55C) == [0xED, 0x95, 0x9C] && Encode(0x233B4) == [0xF0, 0xA3, 0x8E, 0xB4]
  {
  }
}
