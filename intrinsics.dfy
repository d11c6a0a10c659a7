/**
 * The SSE, AVX2 and AVX-512 instructions the kernels use, as the Intel 64
 * and IA-32 Architectures Software Developer's Manual defines them.  A
 * register is modelled by its lanes: `seq<bv8>` for a byte vector,
 * `seq<bv16>` for a word vector, `seq<bv32>` for a doubleword vector, with
 * lane 0 at the lowest address; the 64-bit and 128-bit elements that the
 * code indexes are little-endian views of those lanes.
 */
module Intrinsics {
  import opened Words

  function Zeros(n: nat): (z: seq<bv8>)
    ensures |z| == n && forall j :: 0 <= j < n ==> z[j] == 0
  {
    seq(n, _ => 0)
  }

  /** `__m128i{v}` for a `uint32_t v`: v, zero-extended, is 64-bit element 0 and element 1 is zero. */
  function XmmFromDword(v: bv32): (reg: seq<bv8>)
    ensures |reg| == 16 && reg[..4] == BytesOf32(v)
  {
    BytesOf32(v) + Zeros(12)
  }

  /** MOVQ xmm, m64 (`_mm_loadl_epi64`): eight bytes from memory into the low half, the high half zeroed. */
  function Loadl64(mem: seq<bv8>): (reg: seq<bv8>)
    requires |mem| == 8
    ensures |reg| == 16 && reg[..8] == mem
  {
    mem + Zeros(8)
  }

  /**
   * PMOVZXBD (`_mm_cvtepu8_epi32`, `_mm256_cvtepu8_epi32`,
   * `_mm512_cvtepu8_epi32`): the low `lanes` bytes of the source become
   * doubleword lanes, each zero-extended, in the same order.
   */
  function Pmovzxbd(src: seq<bv8>, lanes: nat): (r: seq<bv32>)
    requires lanes <= |src|
    ensures |r| == lanes
    ensures forall k :: 0 <= k < lanes ==> r[k] <= 0xFF && LowByte32(r[k]) == src[k]
  {
    seq(lanes, k requires 0 <= k < lanes => ZeroExtend(src[k]))
  }

  function ZeroExtend(b: bv8): (r: bv32)
    ensures r <= 0xFF && LowByte32(r) == b
  {
    b as bv32
  }

  /** The low byte of every doubleword lane. */
  function LowBytes(d: seq<bv32>): (r: seq<bv8>)
    ensures |r| == |d|
    ensures forall k :: 0 <= k < |d| ==> r[k] as bv32 == d[k] & 0xFF
  {
    seq(|d|, k requires 0 <= k < |d| => LowByte32(d[k]))
  }

  /** `reg[j]` on an `__m128i` (two `long long`): the 64-bit element j of a doubleword vector. */
  function QwordOfDwords(d: seq<bv32>, j: nat): (q: bv64)
    requires 2 * j + 1 < |d|
  {
    (d[2 * j] as bv64) | ((d[2 * j + 1] as bv64) << 32)
  }

  /** `x >> 32` on a signed 64-bit integer: an arithmetic shift that copies the sign bit in. */
  function SarQword32(x: bv64): (r: bv64)
    ensures r & 0xFFFF_FFFF == x >> 32
    ensures r >> 32 == if x < 0x8000_0000_0000_0000 then 0 else 0xFFFF_FFFF
  {
    if x < 0x8000_0000_0000_0000 then x >> 32 else (x >> 32) | 0xFFFF_FFFF_0000_0000
  }

  /** Conversion of a 64-bit integer to `uint32_t`: the low 32 bits. */
  function TruncateToDword(x: bv64): (r: bv32)
    ensures r as bv64 == x & 0xFFFF_FFFF
  {
    (x & 0xFFFF_FFFF) as bv32
  }

  /** The sixteen bytes of an XMM register holding four doublewords, in memory order. */
  function XmmBytes(d: seq<bv32>): (r: seq<bv8>)
    requires |d| == 4
    ensures |r| == 16
  {
    BytesOf32(d[0]) + BytesOf32(d[1]) + BytesOf32(d[2]) + BytesOf32(d[3])
  }

  /** PEXTRB (`_mm_extract_epi8`): byte imm[3:0] of the register, zero-extended to an `int`. */
  function Pextrb(reg: seq<bv8>, imm: bv8): (r: bv32)
    requires |reg| == 16
    ensures r <= 0xFF && LowByte32(r) == reg[(imm & 0x0F) as int]
  {
    reg[(imm & 0x0F) as int] as bv32
  }

  /** PEXTRD (`_mm_extract_epi32`): doubleword imm[1:0] of a byte register. */
  function Pextrd(reg: seq<bv8>, imm: bv8): (r: bv32)
    requires |reg| == 16
    ensures BytesOf32(r) == reg[4 * (imm & 3) as int .. 4 * (imm & 3) as int + 4]
  {
    var i := 4 * (imm & 3) as int;
    BytesOfLe32(reg[i .. i + 4]);
    Le32(reg[i .. i + 4])
  }

  /** `reg[0]` on a 256-bit or 128-bit integer vector: its 64-bit element 0. */
  function Qword0(reg: seq<bv8>): (r: bv64)
    requires |reg| >= 8
    ensures BytesOf64(r) == reg[..8]
  {
    BytesOfLe64(reg[..8]);
    Le64(reg[..8])
  }

  /** A signed doubleword saturated to an unsigned word (one lane of PACKUSDW). */
  function SaturateToU16(x: bv32): (r: bv16)
  {
    if x >= 0x8000_0000 then 0 else if x > 0xFFFF then 0xFFFF else x as bv16
  }

  /** A signed word saturated to an unsigned byte (one lane of PACKUSWB). */
  function SaturateToU8(x: bv16): (r: bv8)
  {
    if x >= 0x8000 then 0 else if x > 0xFF then 0xFF else x as bv8
  }

  function SaturateAllToU16(d: seq<bv32>): (r: seq<bv16>)
    ensures |r| == |d| && forall k :: 0 <= k < |d| ==> r[k] == SaturateToU16(d[k])
  {
    seq(|d|, k requires 0 <= k < |d| => SaturateToU16(d[k]))
  }

  function SaturateAllToU8(w: seq<bv16>): (r: seq<bv8>)
    ensures |r| == |w| && forall k :: 0 <= k < |w| ==> r[k] == SaturateToU8(w[k])
  {
    seq(|w|, k requires 0 <= k < |w| => SaturateToU8(w[k]))
  }

  /**
   * PACKUSDW (`_mm_packus_epi32`, `_mm256_packus_epi32`): in every 128-bit
   * block, the four saturated doublewords of the first operand followed by
   * the four of the second.
   */
  function Packusdw(a: seq<bv32>, b: seq<bv32>): (r: seq<bv16>)
    requires |a| == |b| && |a| % 4 == 0
    ensures |r| == 2 * |a|
    decreases |a|
  {
    if a == [] then []
    else SaturateAllToU16(a[..4]) + SaturateAllToU16(b[..4]) + Packusdw(a[4..], b[4..])
  }

  /**
   * PACKUSWB (`_mm_packus_epi16`, `_mm256_packus_epi16`): in every 128-bit
   * block, the eight saturated words of the first operand followed by the
   * eight of the second.
   */
  function Packuswb(a: seq<bv16>, b: seq<bv16>): (r: seq<bv8>)
    requires |a| == |b| && |a| % 8 == 0
    ensures |r| == 2 * |a|
    decreases |a|
  {
    if a == [] then []
    else SaturateAllToU8(a[..8]) + SaturateAllToU8(b[..8]) + Packuswb(a[8..], b[8..])
  }

  /** One 128-bit half chosen by a four-bit control of VPERM2I128. */
  function Select128(a: seq<bv32>, b: seq<bv32>, ctl: bv8): (r: seq<bv32>)
    requires |a| == 8 && |b| == 8
    ensures |r| == 4
  {
    if ctl & 8 != 0 then [0, 0, 0, 0]
    else if ctl & 3 == 0 then a[..4]
    else if ctl & 3 == 1 then a[4..]
    else if ctl & 3 == 2 then b[..4]
    else b[4..]
  }

  /** VPERM2I128 (`_mm256_permute2x128_si256`): imm[3:0] picks the low half of the result, imm[7:4] the high half. */
  function Vperm2i128(a: seq<bv32>, b: seq<bv32>, imm: bv8): (r: seq<bv32>)
    requires |a| == 8 && |b| == 8
    ensures |r| == 8
  {
    Select128(a, b, imm & 0x0F) + Select128(a, b, imm >> 4)
  }

  /**
   * VPMOVDB (`_mm256_cvtepi32_epi8`, `_mm512_cvtepi32_epi8`): the low byte
   * of every doubleword, in order; the rest of the destination is zeroed.
   */
  function Vpmovdb(d: seq<bv32>, destBytes: nat): (r: seq<bv8>)
    requires |d| <= destBytes
    ensures |r| == destBytes
    ensures r[..|d|] == LowBytes(d)
    ensures forall j :: |d| <= j < destBytes ==> r[j] == 0
  {
    LowBytes(d) + Zeros(destBytes - |d|)
  }

  /** The control 0x01 used by the AVX2 kernel swaps the two 128-bit halves of its only source. */
  lemma Vperm2i128SwapsHalves(a: seq<bv32>)
    requires |a| == 8
    ensures Vperm2i128(a, a, 0x01) == a[4..] + a[..4]
  {}

  /** The two saturations in a row: the identity on 0..255, 255 up to 0x7FFF, and 0 above (PACKUSWB reads words as signed). */
  lemma SaturateTwice(x: bv32)
    ensures SaturateToU8(SaturateToU16(x)) as bv32 ==
      if x <= 0xFF then x
      else if x < 0x8000 then 0xFF
      else 0
  {}
}
