/**
 * The per-element formula `255.0f * (x / NORM_VAL)`, the scalar reference
 * built from it and the input generator.
 *
 * The float arithmetic is exact on the values the program sees: a lane l
 * is an integer, so CVTDQ2PS represents it exactly while l < 2^24; the
 * division by NORM_VAL = 128, a power of two, is exact; and the product
 * with 255 is exact while 255 * l < 2^24, i.e. l <= 65793.  Truncation
 * toward zero (CVTTPS2DQ, or the conversion to `uint8_t`) then gives the
 * integer quotient (255 * l) / 128.
 */
module Formula {
  import opened Words

  /** NORM_VAL. */
  const NormVal: bv32 := 128
  /** The multiplier of the formula. */
  const FullScale: bv32 := 255
  /** The largest lane on which the float step is exact. */
  const MaxExactLane: bv32 := 65793
  /** MAX_VAL = (int)NORM_VAL, the period of the generated input. */
  const MaxVal: nat := 128
  /** SIZE = 2 << 20, the length of every buffer of the program. */
  const Size: nat := 2097152

  /**
   * CVTDQ2PS, `255.0f * (fx / NORM_VAL)` and CVTTPS2DQ on one lane: the
   * integer value of the truncated product.
   */
  function ScaleLane(l: bv32): (r: bv32)
    requires l <= MaxExactLane
  {
    (l * FullScale) / NormVal
  }

  /** Conversion of an integral float to `uint8_t`, which is defined only inside its range. */
  function FloatToU8(v: bv32): (r: bv8)
    requires v <= 0xFF
    ensures r as bv32 == v
  {
    v as bv8
  }

  /**
   * One element of the reference, `(uint8_t)(255.0f * (x / NORM_VAL))`.
   * The conversion is in range exactly when x <= 128 (ReferenceDefinedExactly).
   */
  function Reference(x: bv8): (r: bv8)
    requires x <= 128
  {
    FloatToU8(ScaleLane(x as bv32))
  }

  /** The reference is the truncated quotient (255 * x) / 128. */
  lemma ReferenceIsQuotient(x: bv8)
    requires x <= 128
    ensures Reference(x) as int == (255 * x as int) / 128
  {}

  /** The float step on a byte the reference accepts fits a byte and is the reference's value. */
  lemma ScaleLaneInDomain(x: bv8)
    requires x <= 128
    ensures ScaleLane(x as bv32) <= 0xFF && LowByte32(ScaleLane(x as bv32)) == Reference(x)
  {}

  /** All bytes are inputs on which the scalar reference is defined. */
  predicate InDomain(s: seq<bv8>)
  {
    forall j :: 0 <= j < |s| ==> s[j] <= 128
  }

  /** The reference applied to every byte (the `expected_data` buffer). */
  function ReferenceBuffer(s: seq<bv8>): (r: seq<bv8>)
    requires InDomain(s)
    ensures |r| == |s|
  {
    seq(|s|, j requires 0 <= j < |s| => Reference(s[j]))
  }

  /** Both pieces of an input in the domain are in the domain. */
  lemma InDomainSplit(s: seq<bv8>, p: nat)
    requires InDomain(s) && p <= |s|
    ensures InDomain(s[..p]) && InDomain(s[p..])
  {
    assert forall j :: 0 <= j < p ==> s[..p][j] == s[j];
    assert forall j :: 0 <= j < |s| - p ==> s[p..][j] == s[p + j];
  }

  /** The reference buffer of two pieces is the concatenation of theirs. */
  lemma ReferenceBufferAppend(a: seq<bv8>, b: seq<bv8>)
    requires InDomain(a) && InDomain(b)
    ensures InDomain(a + b) && ReferenceBuffer(a + b) == ReferenceBuffer(a) + ReferenceBuffer(b)
  {
    assert forall j :: 0 <= j < |a + b| ==> (a + b)[j] == if j < |a| then a[j] else b[j - |a|];
  }

  /** The generated input `data`: byte i is i % MAX_VAL, stored as `uint8_t`. */
  function Ramp(n: nat): (s: seq<bv8>)
    ensures |s| == n
  {
    seq(n, i requires 0 <= i < n => (i % MaxVal) as bv8)
  }

  /** A value below 128 stays below 128 when stored as a byte. */
  lemma ByteBelow128(v: nat)
    requires v < 128
    ensures (v as bv8) < 128
  {}

  /** The float step on a byte yields a value that fits `uint8_t` exactly when the byte is at most 128. */
  lemma ReferenceDefinedExactly(x: bv8)
    ensures ScaleLane(x as bv32) <= 0xFF <==> x <= 128
  {}

  /** Every generated byte is below 128, so the whole input is in the reference's domain. */
  lemma RampInDomain(n: nat)
    ensures forall i :: 0 <= i < n ==> Ramp(n)[i] < 128
    ensures InDomain(Ramp(n))
  {
    forall i | 0 <= i < n
      ensures Ramp(n)[i] < 128
    {
      ByteBelow128(i % MaxVal);
    }
  }

  /** On the generated bytes the reference gives at most 254: the store to `uint8_t` never wraps. */
  lemma ReferenceBelow255(x: bv8)
    requires x < 128
    ensures Reference(x) <= 254
  {}

  /** The reference maps 0 to 0, every x in 1..127 to 2x - 1 and 128 to 255. */
  lemma ReferenceValues(x: bv8)
    requires x <= 128
    ensures x == 0 ==> Reference(x) == 0
    ensures 1 <= x <= 127 ==> Reference(x) as int == 2 * x as int - 1
    ensures x == 128 ==> Reference(x) == 255
  {}

  /** The first sixteen generated bytes are 0, 1, ..., 15. */
  lemma Ramp16()
    ensures Ramp(16) == [0, 1, 2, 3, 4, 5, 6, 7, 8, 9, 10, 11, 12, 13, 14, 15]
  {}

  /** The reference buffer of the first sixteen generated bytes. */
  lemma ReferenceOfRamp16()
    ensures InDomain(Ramp(16))
    ensures ReferenceBuffer(Ramp(16)) == [0, 1, 3, 5, 7, 9, 11, 13, 15, 17, 19, 21, 23, 25, 27, 29]
  {
    RampInDomain(16);
    Ramp16();
  }
}
