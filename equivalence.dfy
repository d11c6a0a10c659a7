/**
 * What each step of the kernels computes, and the theorem the benchmark's
 * validation checks at run time: on every input the scalar reference
 * accepts, every kernel produces the reference's output.
 */
module Equivalence {
  import opened Words
  import opened Intrinsics
  import opened Formula
  import opened Kernels

  // ---- widening ----

  /** `__m128i{v}` then PMOVZXBD: byte k of the loaded word, zero-extended, is lane k. */
  lemma WidenWord32(g: seq<bv8>)
    requires |g| == 4
    ensures forall k :: 0 <= k < 4 ==> Pmovzxbd(XmmFromDword(Le32(g)), 4)[k] == g[k] as bv32
  {
    BytesOfLe32(g);
  }

  /** `_mm_loadl_epi64` then PMOVZXBD (ymm): byte k of the group, zero-extended, is lane k. */
  lemma WidenLoadl64(g: seq<bv8>)
    requires |g| == 8
    ensures forall k :: 0 <= k < 8 ==> Pmovzxbd(Loadl64(g), 8)[k] == g[k] as bv32
  {}

  /** On a group the reference accepts, the lanes after the float step hold the reference's bytes, each at most 255. */
  lemma WidenAndScaleInDomain(reg: seq<bv8>, lanes: nat)
    requires lanes <= |reg| && InDomain(reg[..lanes])
    ensures forall k :: 0 <= k < lanes ==> WidenAndScale(reg, lanes)[k] <= 0xFF
    ensures LowBytes(WidenAndScale(reg, lanes)) == ReferenceBuffer(reg[..lanes])
  {
    var u := WidenAndScale(reg, lanes);
    forall k | 0 <= k < lanes
      ensures u[k] <= 0xFF && LowByte32(u[k]) == Reference(reg[k])
    {
      assert reg[..lanes][k] == reg[k];
      ScaleLaneInDomain(reg[k]);
    }
  }

  // ---- narrowing ----

  /** A lane of at most 255 is its own low byte. */
  predicate LanesFitBytes(u: seq<bv32>)
  {
    forall k :: 0 <= k < |u| ==> u[k] <= 0xFF
  }

  /** The shift/OR recomposition stores lanes 0..3 in bytes 0..3 when every lane is at most 255. */
  lemma NarrowManualInRange(u: seq<bv32>)
    requires |u| == 4 && LanesFitBytes(u)
    ensures BytesOf32(NarrowManual(u)) == LowBytes(u)
  {}

  /** Without that bound it is wrong: lane 1 = 256 spills into byte 2. */
  lemma NarrowManualSpills()
    ensures BytesOf32(NarrowManual([0, 0x100, 0, 0])) == [0, 0, 1, 0]
    ensures LowBytes([0, 0x100, 0, 0]) == [0, 0, 0, 0]
  {}

  /** The PEXTRB recomposition stores the low byte of lane k in byte k, for any lanes. */
  lemma NarrowExtractLowBytes(u: seq<bv32>)
    requires |u| == 4
    ensures BytesOf32(NarrowExtract(u)) == LowBytes(u)
  {}

  /** The two saturating packs store lane k, saturated twice, in byte k, for any lanes. */
  lemma NarrowPackSaturates(u: seq<bv32>)
    requires |u| == 4
    ensures BytesOf32(NarrowPack(u)) == SaturateAllToU8(SaturateAllToU16(u))
  {}

  /** The AVX2 kernel: after the half swap, bytes 0..7 are lanes 0..7 saturated twice, in order. */
  lemma NarrowAvx2Saturates(u: seq<bv32>)
    requires |u| == 8
    ensures BytesOf64(NarrowAvx2(u)) == SaturateAllToU8(SaturateAllToU16(u))
  {}

  /** VPMOVDB (ymm): byte k is the low byte of lane k, for any lanes. */
  lemma NarrowVpmovdb8LowBytes(u: seq<bv32>)
    requires |u| == 8
    ensures BytesOf64(NarrowVpmovdb8(u)) == LowBytes(u)
  {}

  /** VPMOVDB (zmm): byte k is the low byte of lane k, for any lanes. */
  lemma NarrowVpmovdb16LowBytes(u: seq<bv32>)
    requires |u| == 16
    ensures BytesOf128(NarrowVpmovdb16(u)) == LowBytes(u)
  {
    BytesOfLe128(Vpmovdb(u, 16));
  }

  /** On lanes of at most 255 the double saturation keeps every lane. */
  lemma SaturateTwiceInRange(u: seq<bv32>)
    requires LanesFitBytes(u)
    ensures SaturateAllToU8(SaturateAllToU16(u)) == LowBytes(u)
  {
    forall k | 0 <= k < |u|
      ensures SaturateToU8(SaturateToU16(u[k])) == LowByte32(u[k])
    {
      SaturateTwice(u[k]);
    }
  }

  // ---- one iteration ----

  /** One iteration of any vector kernel on a group the reference accepts stores the reference's bytes. */
  lemma GroupMatchesReference(k: Kernel, g: seq<bv8>)
    requires Width(k) > 1 && |g| == Width(k) && InDomain(g)
    ensures GroupResult(k, g) == ReferenceBuffer(g)
  {
    match k
    case SseManualRecompose =>
      var reg := XmmFromDword(Le32(g));
      BytesOfLe32(g);
      WidenAndScaleInDomain(reg, 4);
      NarrowManualInRange(WidenAndScale(reg, 4));
    case SseExtractRecompose =>
      var reg := XmmFromDword(Le32(g));
      BytesOfLe32(g);
      WidenAndScaleInDomain(reg, 4);
      NarrowExtractLowBytes(WidenAndScale(reg, 4));
    case SsePackRecompose =>
      var reg := XmmFromDword(Le32(g));
      BytesOfLe32(g);
      WidenAndScaleInDomain(reg, 4);
      NarrowPackSaturates(WidenAndScale(reg, 4));
      SaturateTwiceInRange(WidenAndScale(reg, 4));
    case Avx8 =>
      var reg := Loadl64(g);
      WidenAndScaleInDomain(reg, 8);
      NarrowAvx2Saturates(WidenAndScale(reg, 8));
      SaturateTwiceInRange(WidenAndScale(reg, 8));
    case Avx512Recompose8 =>
      var reg := Loadl64(g);
      WidenAndScaleInDomain(reg, 8);
      NarrowVpmovdb8LowBytes(WidenAndScale(reg, 8));
    case Avx512x16 =>
      assert g[..16] == g;
      WidenAndScaleInDomain(g, 16);
      NarrowVpmovdb16LowBytes(WidenAndScale(g, 16));
  }

  // ---- whole passes ----

  /** A grouped pass over a whole number of groups followed by more bytes is the two passes concatenated. */
  lemma {:induction false} GroupedAppend(n: nat, f: seq<bv8> --> seq<bv8>, a: seq<bv8>, b: seq<bv8>)
    requires n > 0 && Multiple(n, |a|) && MapsGroups(n, f)
    ensures Grouped(n, f, a + b) == Grouped(n, f, a) + Grouped(n, f, b)
    decreases |a|
  {
    if |a| == 0 {
      assert a + b == b;
    } else {
      var ab := a + b;
      assert ab[..n] == a[..n];
      assert ab[n..] == a[n..] + b;
      GroupedAppend(n, f, a[n..], b);
    }
  }

  /** The grouped pass over bytes [0, p + n) is the pass over [0, p) followed by f on the group at p. */
  lemma GroupedStep(n: nat, f: seq<bv8> --> seq<bv8>, s: seq<bv8>, p: nat)
    requires n > 0 && Multiple(n, p) && p + n <= |s| && MapsGroups(n, f)
    ensures Multiple(n, p + n)
    ensures Grouped(n, f, s[..p + n]) == Grouped(n, f, s[..p]) + f(s[p..p + n])
  {
    var g := s[p..p + n];
    assert Multiple(n, p + n - n);
    GroupedAppend(n, f, s[..p], g);
    assert s[..p] + g == s[..p + n];
    assert g[..n] == g && |g[n..]| == 0;
  }

  /** If f agrees with the reference on every group in its domain, so does the grouped pass. */
  lemma {:induction false} GroupedMatchesReference(n: nat, f: seq<bv8> --> seq<bv8>, s: seq<bv8>)
    requires n > 0 && Multiple(n, |s|) && MapsGroups(n, f) && InDomain(s)
    requires forall g :: |g| == n && InDomain(g) ==> f(g) == ReferenceBuffer(g)
    ensures Grouped(n, f, s) == ReferenceBuffer(s)
    decreases |s|
  {
    if |s| > 0 {
      var h, t := s[..n], s[n..];
      assert |s| >= n && Multiple(n, |t|);
      InDomainSplit(s, n);
      GroupedMatchesReference(n, f, t);
      assert Grouped(n, f, s) == f(h) + Grouped(n, f, t);
      ReferenceBufferAppend(h, t);
      assert h + t == s;
    }
  }

  /** Kernel equivalence: on any input the reference accepts, every kernel's pass yields the reference buffer. */
  lemma KernelMatchesReference(k: Kernel, s: seq<bv8>)
    requires |s| % Width(k) == 0 && InDomain(s)
    ensures Admissible(k, s) && Transform(k, s) == ReferenceBuffer(s)
  {
    if Width(k) > 1 {
      forall g | |g| == Width(k) && InDomain(g)
        ensures Step(k)(g) == ReferenceBuffer(g)
      {
        GroupMatchesReference(k, g);
      }
      MultipleOfMod(Width(k), |s|);
      GroupedMatchesReference(Width(k), Step(k), s);
    }
  }

  /** Any two kernels agree on every input both accept and the reference accepts. */
  lemma KernelsAgree(k1: Kernel, k2: Kernel, s: seq<bv8>)
    requires |s| % Width(k1) == 0 && |s| % Width(k2) == 0 && InDomain(s)
    ensures Admissible(k1, s) && Admissible(k2, s)
    ensures Transform(k1, s) == Transform(k2, s)
  {
    KernelMatchesReference(k1, s);
    KernelMatchesReference(k2, s);
  }

  /** The run of the program: on the SIZE generated bytes every kernel yields the reference buffer. */
  lemma FullSizeScenario(k: Kernel)
    ensures Admissible(k, Ramp(Size))
    ensures Transform(k, Ramp(Size)) == ReferenceBuffer(Ramp(Size))
  {
    RampInDomain(Size);
    KernelMatchesReference(k, Ramp(Size));
  }

  /** Sixteen generated bytes: every kernel yields 0, 1, 3, 5, ..., 29, with no bytes left over. */
  lemma Ramp16Scenario(k: Kernel)
    ensures Admissible(k, Ramp(16))
    ensures Transform(k, Ramp(16)) == [0, 1, 3, 5, 7, 9, 11, 13, 15, 17, 19, 21, 23, 25, 27, 29]
  {
    ReferenceOfRamp16();
    KernelMatchesReference(k, Ramp(16));
  }

  /**
   * Outside the reference's domain the narrowing strategies part ways: on
   * the byte 255 the float step gives 508, which the truncating PEXTRB
   * recomposition stores as 252, the saturating packs as 255, and the
   * shift/OR recomposition as 252 with a bit spilled into byte 2.
   */
  lemma KernelsDivergeAbove128()
    ensures GroupResult(SseExtractRecompose, [255, 255, 255, 255]) == [252, 252, 252, 252]
    ensures GroupResult(SsePackRecompose, [255, 255, 255, 255]) == [255, 255, 255, 255]
    ensures GroupResult(SseManualRecompose, [255, 255, 255, 255]) == [252, 252, 253, 252]
  {
    var g: seq<bv8> := [255, 255, 255, 255];
    var u := WidenAndScale(XmmFromDword(Le32(g)), 4);
    assert u == [508, 508, 508, 508];
    NarrowExtractLowBytes(u);
    NarrowPackSaturates(u);
  }
}
