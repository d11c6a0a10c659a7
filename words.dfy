/**
 * Little-endian words of 4, 8 and 16 bytes.  The kernels read their input
 * and write their output through `uint32_t*`, `uint64_t*` and
 * `__uint128_t*` views of byte buffers on a little-endian machine: a word
 * at byte offset `o` is made of the bytes `o .. o+N-1`, the first of them
 * the least significant.
 */
module Words {
  /** The least significant byte of a 32-bit value (a conversion to `uint8_t`). */
  function LowByte32(x: bv32): (b: bv8)
    ensures b as bv32 == x & 0xFF
  {
    (x & 0xFF) as bv8
  }

  function Le32(b: seq<bv8>): (w: bv32)
    requires |b| == 4
  {
    (b[0] as bv32) | ((b[1] as bv32) << 8) | ((b[2] as bv32) << 16) | ((b[3] as bv32) << 24)
  }

  function BytesOf32(w: bv32): (b: seq<bv8>)
    ensures |b| == 4
  {
    [LowByte32(w), LowByte32(w >> 8), LowByte32(w >> 16), LowByte32(w >> 24)]
  }

  function Le64(b: seq<bv8>): (w: bv64)
    requires |b| == 8
  {
    (Le32(b[..4]) as bv64) | ((Le32(b[4..]) as bv64) << 32)
  }

  function BytesOf64(w: bv64): (b: seq<bv8>)
    ensures |b| == 8
  {
    BytesOf32((w & 0xFFFF_FFFF) as bv32) + BytesOf32((w >> 32) as bv32)
  }

  function Le128(b: seq<bv8>): (w: bv128)
    requires |b| == 16
  {
    (Le64(b[..8]) as bv128) | ((Le64(b[8..]) as bv128) << 64)
  }

  function BytesOf128(w: bv128): (b: seq<bv8>)
    ensures |b| == 16
  {
    BytesOf64((w & 0xFFFF_FFFF_FFFF_FFFF) as bv64) + BytesOf64((w >> 64) as bv64)
  }

  /** Reading four bytes as a word and storing that word gives back the same bytes. */
  lemma BytesOfLe32(b: seq<bv8>)
    requires |b| == 4
    ensures BytesOf32(Le32(b)) == b
  {}

  /** Storing a word and reading it back gives the same word. */
  lemma Le32OfBytes(w: bv32)
    ensures Le32(BytesOf32(w)) == w
  {}

  lemma BytesOfLe64(b: seq<bv8>)
    requires |b| == 8
    ensures BytesOf64(Le64(b)) == b
  {
    BytesOfLe32(b[..4]);
    BytesOfLe32(b[4..]);
  }

  lemma Le64OfBytes(w: bv64)
    ensures Le64(BytesOf64(w)) == w
  {
    var b := BytesOf64(w);
    assert b[..4] == BytesOf32((w & 0xFFFF_FFFF) as bv32);
    assert b[4..] == BytesOf32((w >> 32) as bv32);
    Le32OfBytes((w & 0xFFFF_FFFF) as bv32);
    Le32OfBytes((w >> 32) as bv32);
  }

  lemma BytesOfLe128(b: seq<bv8>)
    requires |b| == 16
    ensures BytesOf128(Le128(b)) == b
  {
    BytesOfLe64(b[..8]);
    BytesOfLe64(b[8..]);
  }

  lemma Le128OfBytes(w: bv128)
    ensures Le128(BytesOf128(w)) == w
  {
    var b := BytesOf128(w);
    assert b[..8] == BytesOf64((w & 0xFFFF_FFFF_FFFF_FFFF) as bv64);
    assert b[8..] == BytesOf64((w >> 64) as bv64);
    Le64OfBytes((w & 0xFFFF_FFFF_FFFF_FFFF) as bv64);
    Le64OfBytes((w >> 64) as bv64);
  }
}
