/**
 * Byte-level helpers of the record decoder: the unsigned 32-bit integer type,
 * its big-endian encoding (transform_u32_to_array_of_u8) and byte reversal
 * (Vec::reverse).
 */
module Bytes {

  /** A Rust u8. */
  type Byte = x: int | 0 <= x < 0x100

  const MaxU32: int := 0xFFFF_FFFF

  /** A Rust u32. */
  type U32 = x: int | 0 <= x <= MaxU32

  /** The value of four bytes read most significant first. */
  function BigEndianValue(b: seq<Byte>): (v: int)
    requires |b| == 4
    ensures 0 <= v <= MaxU32
  {
    (b[0] as int) * 0x100_0000 + (b[1] as int) * 0x1_0000 + (b[2] as int) * 0x100 + b[3] as int
  }

  /**
   * transform_u32_to_array_of_u8: byte k is `(x >> (24 - 8k)) & 0xff`; for a
   * non-negative x a right shift by n is division by 2^n and `& 0xff` is
   * the remainder modulo 256.
   */
  function U32ToBytes(x: U32): (r: seq<Byte>)
    ensures |r| == 4
    ensures BigEndianValue(r) == x
  {
    var r := [(x / 0x100_0000) % 0x100, (x / 0x1_0000) % 0x100, (x / 0x100) % 0x100, x % 0x100];
    assert x / 0x1_0000 == (x / 0x100_0000) * 0x100 + (x / 0x1_0000) % 0x100;
    assert x / 0x100 == (x / 0x1_0000) * 0x100 + (x / 0x100) % 0x100;
    r
  }

  /** Different integers give different byte arrays. */
  lemma U32ToBytesInjective(x: U32, y: U32)
    ensures U32ToBytes(x) == U32ToBytes(y) <==> x == y
  {
  }

  /** Every four-byte array is the encoding of its big-endian value. */
  lemma U32ToBytesOnto(b: seq<Byte>)
    requires |b| == 4
    ensures U32ToBytes(BigEndianValue(b)) == b
  {
    var v := BigEndianValue(b);
    assert v / 0x100_0000 == b[0];
    assert v / 0x1_0000 == (b[0] as int) * 0x100 + b[1];
    assert v / 0x100 == (b[0] as int) * 0x1_0000 + (b[1] as int) * 0x100 + b[2];
  }

  /** Vec::reverse: the element at i moves to the mirrored position. */
  function Reverse<T>(s: seq<T>): (r: seq<T>)
    ensures |r| == |s|
    ensures forall i | 0 <= i < |s| :: r[i] == s[|s| - 1 - i]
  {
    if s == [] then [] else Reverse(s[1..]) + [s[0]]
  }

  /** Reversing twice gives the original sequence back. */
  lemma ReverseInvolution<T>(s: seq<T>)
    ensures Reverse(Reverse(s)) == s
  {
  }
}
