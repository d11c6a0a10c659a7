/**
 * The eight kernels of the benchmark.  Each walks the input in groups of
 * N bytes (N = 1, 4, 8 or 16) and computes one output group per input
 * group; the vector kernels widen a group to doubleword lanes, apply the
 * float step to every lane and narrow the lanes back to N bytes, and they
 * differ only in how they narrow.
 */
module Kernels {
  import opened Words
  import opened Intrinsics
  import opened Formula

  datatype Kernel =
    | NaiveDirect          // vector_1u8_at_once_naive_direct
    | DataPtr              // vector_1u8_at_once_data_ptr
    | SseManualRecompose   // sse_4u8_at_once_manual_recompose
    | SseExtractRecompose  // sse_4u8_at_once_extract_recompose
    | SsePackRecompose     // sse_4u8_at_once_pack_recompose
    | Avx8                 // avx_8u8_at_once
    | Avx512Recompose8     // avx_8u8_at_once_avx512_recompose
    | Avx512x16            // avx_16u8_at_once_avx512

  /** The number of bytes a kernel handles per iteration. */
  function Width(k: Kernel): (n: nat)
    ensures n in {1, 4, 8, 16}
  {
    match k
    case NaiveDirect | DataPtr => 1
    case SseManualRecompose | SseExtractRecompose | SsePackRecompose => 4
    case Avx8 | Avx512Recompose8 => 8
    case Avx512x16 => 16
  }

  /**
   * The inputs a kernel accepts: a length divisible by its width, and for
   * the scalar kernels, whose conversion to `uint8_t` must stay in range,
   * bytes of at most 128.
   */
  predicate Admissible(k: Kernel, s: seq<bv8>)
  {
    |s| % Width(k) == 0 && (Width(k) == 1 ==> InDomain(s))
  }

  // ---- steps 1 and 2, shared by the vector kernels ----

  /** PMOVZXBD of the low `lanes` bytes, then the float step on every lane. */
  function WidenAndScale(reg: seq<bv8>, lanes: nat): (u: seq<bv32>)
    requires lanes <= |reg|
    ensures |u| == lanes
  {
    var w := Pmovzxbd(reg, lanes);
    seq(lanes, k requires 0 <= k < lanes => ScaleLane(w[k]))
  }

  // ---- step 3, one function per narrowing strategy ----

  /** main.cpp:101-106: shifts and ORs over the two 64-bit halves, stored as `uint32_t`. */
  function NarrowManual(u: seq<bv32>): (w: bv32)
    requires |u| == 4
  {
    var h0 := QwordOfDwords(u, 0);
    var h1 := QwordOfDwords(u, 1);
    TruncateToDword((SarQword32(h1) << 24) | ((h1 & 0xFF) << 16) | (SarQword32(h0) << 8) | (h0 & 0xFF))
  }

  /** main.cpp:131-136: PEXTRB of bytes 12, 8, 4 and 0, composed with `int` shifts and ORs. */
  function NarrowExtract(u: seq<bv32>): (w: bv32)
    requires |u| == 4
  {
    var reg := XmmBytes(u);
    (Pextrb(reg, 12) << 24) | (Pextrb(reg, 8) << 16) | (Pextrb(reg, 4) << 8) | Pextrb(reg, 0)
  }

  /** main.cpp:161-164: PACKUSDW, PACKUSWB, then PEXTRD of doubleword 0. */
  function NarrowPack(u: seq<bv32>): (w: bv32)
    requires |u| == 4
  {
    var w := Packusdw(u, u);
    var b := Packuswb(w, w);
    Pextrd(b, 0)
  }

  /** main.cpp:192-195: VPERM2I128 swapping the halves, VPACKUSDW, VPACKUSWB, then 64-bit element 0. */
  function NarrowAvx2(u: seq<bv32>): (w: bv64)
    requires |u| == 8
  {
    var swapped := Vperm2i128(u, u, 0x01);
    var w := Packusdw(u, swapped);
    var b := Packuswb(w, w);
    Qword0(b)
  }

  /** main.cpp:222-223: VPMOVDB ymm to xmm, then 64-bit element 0. */
  function NarrowVpmovdb8(u: seq<bv32>): (w: bv64)
    requires |u| == 8
  {
    Qword0(Vpmovdb(u, 16))
  }

  /** main.cpp:251-252: VPMOVDB zmm to xmm, then the register as a `__uint128_t`. */
  function NarrowVpmovdb16(u: seq<bv32>): (w: bv128)
    requires |u| == 16
  {
    Le128(Vpmovdb(u, 16))
  }

  // ---- loop bodies: the word each iteration stores ----

  /** main.cpp:96-106. */
  function ManualRecomposeBody(v: bv32): (w: bv32)
  {
    NarrowManual(WidenAndScale(XmmFromDword(v), 4))
  }

  /** main.cpp:126-136. */
  function ExtractRecomposeBody(v: bv32): (w: bv32)
  {
    NarrowExtract(WidenAndScale(XmmFromDword(v), 4))
  }

  /** main.cpp:156-165. */
  function PackRecomposeBody(v: bv32): (w: bv32)
  {
    NarrowPack(WidenAndScale(XmmFromDword(v), 4))
  }

  /** main.cpp:187-195. */
  function Avx8Body(mem: seq<bv8>): (w: bv64)
    requires |mem| == 8
  {
    NarrowAvx2(WidenAndScale(Loadl64(mem), 8))
  }

  /** main.cpp:217-223. */
  function Avx512Recompose8Body(mem: seq<bv8>): (w: bv64)
    requires |mem| == 8
  {
    NarrowVpmovdb8(WidenAndScale(Loadl64(mem), 8))
  }

  /** main.cpp:246-252. */
  function Avx512x16Body(mem: seq<bv8>): (w: bv128)
    requires |mem| == 16
  {
    NarrowVpmovdb16(WidenAndScale(mem, 16))
  }

  /** The output bytes of one iteration of vector kernel k on the input group g. */
  function GroupResult(k: Kernel, g: seq<bv8>): (r: seq<bv8>)
    requires Width(k) > 1 && |g| == Width(k)
    ensures |r| == |g|
  {
    match k
    case SseManualRecompose => BytesOf32(ManualRecomposeBody(Le32(g)))
    case SseExtractRecompose => BytesOf32(ExtractRecomposeBody(Le32(g)))
    case SsePackRecompose => BytesOf32(PackRecomposeBody(Le32(g)))
    case Avx8 => BytesOf64(Avx8Body(g))
    case Avx512Recompose8 => BytesOf64(Avx512Recompose8Body(g))
    case Avx512x16 => BytesOf128(Avx512x16Body(g))
  }

  /** f maps every group of n bytes to n bytes. */
  ghost predicate MapsGroups(n: nat, f: seq<bv8> --> seq<bv8>)
  {
    forall g: seq<bv8> :: |g| == n ==> f.requires(g) && |f(g)| == n
  }

  /** The iteration of vector kernel k, as a function on groups. */
  function Step(k: Kernel): (f: seq<bv8> --> seq<bv8>)
    requires Width(k) > 1
    ensures MapsGroups(Width(k), f)
    ensures forall g {:trigger f(g)} :: |g| == Width(k) ==> f(g) == GroupResult(k, g)
  {
    g requires |g| == Width(k) => GroupResult(k, g)
  }

  /** m is a whole number of groups of n bytes. */
  predicate Multiple(n: nat, m: nat)
    requires n > 0
    decreases m
  {
    m == 0 || (m >= n && Multiple(n, m - n))
  }

  /**
   * A pass that maps every whole group of n bytes with f, in order; a
   * tail shorter than a group yields nothing.
   */
  function Grouped(n: nat, f: seq<bv8> --> seq<bv8>, s: seq<bv8>): (r: seq<bv8>)
    requires n > 0 && MapsGroups(n, f)
    decreases |s|
  {
    if |s| < n then [] else f(s[..n]) + Grouped(n, f, s[n..])
  }

  /** On a whole number of groups the grouped pass yields as many bytes as it reads. */
  lemma {:induction false} GroupedLength(n: nat, f: seq<bv8> --> seq<bv8>, s: seq<bv8>)
    requires n > 0 && MapsGroups(n, f) && Multiple(n, |s|)
    ensures |Grouped(n, f, s)| == |s|
    decreases |s|
  {
    if |s| > 0 {
      GroupedLength(n, f, s[n..]);
    }
  }

  /** The whole output of one pass of kernel k. */
  function Transform(k: Kernel, s: seq<bv8>): (r: seq<bv8>)
    requires Admissible(k, s)
    ensures |r| == |s|
  {
    if Width(k) == 1 then ReferenceBuffer(s)
    else
      MultipleOfMod(Width(k), |s|);
      GroupedLength(Width(k), Step(k), s);
      Grouped(Width(k), Step(k), s)
  }

  /** A length divisible by a width is a whole number of groups of that width. */
  lemma {:induction false} MultipleOfMod(n: nat, m: nat)
    requires n in {1, 4, 8, 16} && m % n == 0
    ensures Multiple(n, m)
    decreases m
  {
    if m > 0 {
      assert m >= n && (m - n) % n == 0 by {
        if n == 1 {} else if n == 4 {} else if n == 8 {} else {}
      }
      MultipleOfMod(n, m - n);
    }
  }
}
