/**
 * The imperative side of the program: the generated input, the expected
 * buffer, the validator, one method per kernel for the loop that fills
 * the output buffer, and the body of a benchmark.
 */
module Benchmarks {
  import opened Words
  import opened Intrinsics
  import opened Formula
  import opened Kernels
  import opened Equivalence

  /** What `validate_result` reports: nothing, or the first differing index with both bytes. */
  datatype Verdict = Match | Mismatch(index: nat, found: bv8, expected: bv8)

  /** main.cpp:21-27: `out[i] = i % MAX_VAL` for every index. */
  method GenerateData(size: nat) returns (data: array<bv8>)
    ensures fresh(data)
    ensures data[..] == Ramp(size)
  {
    data := new bv8[size];
    for i := 0 to size
      invariant forall j :: 0 <= j < i ==> data[j] == Ramp(size)[j]
    {
      data[i] := (i % MaxVal) as bv8;
    }
  }

  /** main.cpp:31-36: the reference applied to every input byte. */
  method ComputeExpected(data: array<bv8>) returns (expected: array<bv8>)
    requires InDomain(data[..])
    ensures fresh(expected)
    ensures expected[..] == ReferenceBuffer(data[..])
  {
    expected := new bv8[data.Length];
    for i := 0 to data.Length
      invariant forall j :: 0 <= j < i ==> expected[j] == Reference(data[j])
    {
      assert data[..][i] == data[i];
      expected[i] := Reference(data[i]);
    }
  }

  /**
   * main.cpp:39-47: scan for the first index where the result differs
   * from the expected buffer.  The C++ asserts that both have SIZE bytes.
   */
  method ValidateResult(result: array<bv8>, expected: array<bv8>) returns (v: Verdict)
    requires result.Length == expected.Length
    ensures v.Match? <==> result[..] == expected[..]
    ensures v.Mismatch? ==>
      v.index < result.Length &&
      v.found == result[v.index] && v.expected == expected[v.index] &&
      v.found != v.expected &&
      forall j :: 0 <= j < v.index ==> result[j] == expected[j]
  {
    for i := 0 to result.Length
      invariant forall j :: 0 <= j < i ==> result[j] == expected[j]
    {
      if result[i] != expected[i] {
        return Mismatch(i, result[i], expected[i]);
      }
    }
    assert result[..] == expected[..];
    return Match;
  }

  /** Validation changes nothing, so a second call reports what the first did; on a matching pair both succeed. */
  method ValidateTwice(result: array<bv8>, expected: array<bv8>) returns (first: Verdict, second: Verdict)
    requires result.Length == expected.Length
    ensures first == second
    ensures result[..] == expected[..] ==> first.Match? && second.Match?
  {
    first := ValidateResult(result, expected);
    second := ValidateResult(result, expected);
  }

  /** A store through a `uintN_t*` view: bytes off .. off+|b|-1 become b, nothing else changes. */
  method Store(out: array<bv8>, off: nat, b: seq<bv8>)
    requires off + |b| <= out.Length
    modifies out
    ensures out[..] == old(out[..])[..off] + b + old(out[..])[off + |b|..]
  {
    forall j | 0 <= j < |b| {
      out[off + j] := b[j];
    }
  }

  /**
   * After a store at off, the bytes up to the end of the stored ones are the
   * old prefix followed by the stored bytes, and the bytes after them are
   * the old ones.
   */
  lemma SplitAfterStore(before: seq<bv8>, after: seq<bv8>, off: nat, b: seq<bv8>)
    requires off + |b| <= |before| && after == before[..off] + b + before[off + |b|..]
    ensures after[..off + |b|] == before[..off] + b
    ensures after[off + |b|..] == before[off + |b|..]
  {}

  /** main.cpp:54-56: one pass of vector_1u8_at_once_naive_direct. */
  method NaiveDirectPass(data: array<bv8>, out: array<bv8>)
    requires out != data && out.Length == data.Length && InDomain(data[..])
    modifies out
    ensures Admissible(NaiveDirect, data[..])
    ensures out[..] == Transform(NaiveDirect, data[..])
  {
    for i := 0 to data.Length
      invariant forall j :: 0 <= j < i ==> out[j] == Reference(data[j])
    {
      assert data[..][i] == data[i];
      out[i] := Reference(data[i]);
    }
    assert data[..data.Length] == data[..];
    assert out[..data.Length] == out[..];
  }

  /** main.cpp:72-74: one pass of vector_1u8_at_once_data_ptr, the same loop through `const uint8_t*` and `uint8_t*` views. */
  method DataPtrPass(data: array<bv8>, out: array<bv8>)
    requires out != data && out.Length == data.Length && InDomain(data[..])
    modifies out
    ensures Admissible(DataPtr, data[..])
    ensures out[..] == Transform(DataPtr, data[..])
  {
    for i := 0 to data.Length
      invariant forall j :: 0 <= j < i ==> out[j] == Reference(data[j])
    {
      assert data[..][i] == data[i];
      out[i] := Reference(data[i]);
    }
    assert data[..data.Length] == data[..];
    assert out[..data.Length] == out[..];
  }

  /**
   * The loop shared by the vector kernels: at byte offset p (p = N * i in
   * the C++ loop over i < SIZE / N) it loads group i, computes f of it and
   * stores the result over bytes p .. p + N - 1 of the output.
   */
  method GroupedPass(n: nat, f: seq<bv8> --> seq<bv8>, data: array<bv8>, out: array<bv8>)
    requires n > 0 && out != data && out.Length == data.Length && Multiple(n, data.Length) && MapsGroups(n, f)
    modifies out
    ensures out[..] == Grouped(n, f, data[..])
  {
    var p := 0;
    while p < data.Length
      invariant p <= data.Length && Multiple(n, p) && Multiple(n, data.Length - p)
      invariant out[..p] == Grouped(n, f, data[..p])
      decreases data.Length - p
    {
      assert data.Length - p >= n && Multiple(n, data.Length - p - n);
      StoreGroup(n, f, data, out, p);
      p := p + n;
    }
    assert data[..data.Length] == data[..];
    assert out[..data.Length] == out[..];
  }

  /** One iteration of that loop: f of the group at byte offset p is stored over the same bytes of the output, and no later byte changes. */
  method StoreGroup(n: nat, f: seq<bv8> --> seq<bv8>, data: array<bv8>, out: array<bv8>, p: nat)
    requires n > 0 && out != data && out.Length == data.Length && MapsGroups(n, f)
    requires Multiple(n, p) && p + n <= data.Length
    requires out[..p] == Grouped(n, f, data[..p])
    modifies out
    ensures Multiple(n, p + n)
    ensures out[..p + n] == Grouped(n, f, data[..p + n])
    ensures out[p + n..] == old(out[p + n..])
  {
    ghost var s := data[..];
    ghost var before := out[..];
    var b := f(data[p..p + n]);
    Store(out, p, b);
    SplitAfterStore(before, out[..], p, b);
    GroupedStep(n, f, s, p);
    assert s[..p] == data[..p] && s[..p + n] == data[..p + n] && s[p..p + n] == data[p..p + n];
  }

  /** main.cpp:95-107: one pass of sse_4u8_at_once_manual_recompose. */
  method SseManualRecomposePass(data: array<bv8>, out: array<bv8>)
    requires out != data && out.Length == data.Length && data.Length % 4 == 0
    modifies out
    ensures Admissible(SseManualRecompose, data[..])
    ensures out[..] == Transform(SseManualRecompose, data[..])
    ensures InDomain(data[..]) ==> out[..] == ReferenceBuffer(data[..])
  {
    MultipleOfMod(4, data.Length);
    GroupedPass(4, Step(SseManualRecompose), data, out);
    if InDomain(data[..]) {
      KernelMatchesReference(SseManualRecompose, data[..]);
    }
  }

  /** main.cpp:125-137: one pass of sse_4u8_at_once_extract_recompose. */
  method SseExtractRecomposePass(data: array<bv8>, out: array<bv8>)
    requires out != data && out.Length == data.Length && data.Length % 4 == 0
    modifies out
    ensures Admissible(SseExtractRecompose, data[..])
    ensures out[..] == Transform(SseExtractRecompose, data[..])
    ensures InDomain(data[..]) ==> out[..] == ReferenceBuffer(data[..])
  {
    MultipleOfMod(4, data.Length);
    GroupedPass(4, Step(SseExtractRecompose), data, out);
    if InDomain(data[..]) {
      KernelMatchesReference(SseExtractRecompose, data[..]);
    }
  }

  /** main.cpp:155-166: one pass of sse_4u8_at_once_pack_recompose. */
  method SsePackRecomposePass(data: array<bv8>, out: array<bv8>)
    requires out != data && out.Length == data.Length && data.Length % 4 == 0
    modifies out
    ensures Admissible(SsePackRecompose, data[..])
    ensures out[..] == Transform(SsePackRecompose, data[..])
    ensures InDomain(data[..]) ==> out[..] == ReferenceBuffer(data[..])
  {
    MultipleOfMod(4, data.Length);
    GroupedPass(4, Step(SsePackRecompose), data, out);
    if InDomain(data[..]) {
      KernelMatchesReference(SsePackRecompose, data[..]);
    }
  }

  /** main.cpp:186-196: one pass of avx_8u8_at_once. */
  method Avx8Pass(data: array<bv8>, out: array<bv8>)
    requires out != data && out.Length == data.Length && data.Length % 8 == 0
    modifies out
    ensures Admissible(Avx8, data[..])
    ensures out[..] == Transform(Avx8, data[..])
    ensures InDomain(data[..]) ==> out[..] == ReferenceBuffer(data[..])
  {
    MultipleOfMod(8, data.Length);
    GroupedPass(8, Step(Avx8), data, out);
    if InDomain(data[..]) {
      KernelMatchesReference(Avx8, data[..]);
    }
  }

  /** main.cpp:216-224: one pass of avx_8u8_at_once_avx512_recompose. */
  method Avx512Recompose8Pass(data: array<bv8>, out: array<bv8>)
    requires out != data && out.Length == data.Length && data.Length % 8 == 0
    modifies out
    ensures Admissible(Avx512Recompose8, data[..])
    ensures out[..] == Transform(Avx512Recompose8, data[..])
    ensures InDomain(data[..]) ==> out[..] == ReferenceBuffer(data[..])
  {
    MultipleOfMod(8, data.Length);
    GroupedPass(8, Step(Avx512Recompose8), data, out);
    if InDomain(data[..]) {
      KernelMatchesReference(Avx512Recompose8, data[..]);
    }
  }

  /** main.cpp:245-253: one pass of avx_16u8_at_once_avx512. */
  method Avx512x16Pass(data: array<bv8>, out: array<bv8>)
    requires out != data && out.Length == data.Length && data.Length % 16 == 0
    modifies out
    ensures Admissible(Avx512x16, data[..])
    ensures out[..] == Transform(Avx512x16, data[..])
    ensures InDomain(data[..]) ==> out[..] == ReferenceBuffer(data[..])
  {
    MultipleOfMod(16, data.Length);
    GroupedPass(16, Step(Avx512x16), data, out);
    if InDomain(data[..]) {
      KernelMatchesReference(Avx512x16, data[..]);
    }
  }

  /** One pass of kernel k: the inner loop of its benchmark function. */
  method RunPass(k: Kernel, data: array<bv8>, out: array<bv8>)
    requires out != data && out.Length == data.Length && Admissible(k, data[..])
    modifies out
    ensures out[..] == Transform(k, data[..])
  {
    match k
    case NaiveDirect => NaiveDirectPass(data, out);
    case DataPtr => DataPtrPass(data, out);
    case SseManualRecompose => SseManualRecomposePass(data, out);
    case SseExtractRecompose => SseExtractRecomposePass(data, out);
    case SsePackRecompose => SsePackRecomposePass(data, out);
    case Avx8 => Avx8Pass(data, out);
    case Avx512Recompose8 => Avx512Recompose8Pass(data, out);
    case Avx512x16 => Avx512x16Pass(data, out);
  }

  /** What the output buffer holds after `trials` passes of kernel k: zeros before the first pass, the kernel's output after. */
  function Produced(k: Kernel, s: seq<bv8>, trials: nat): (r: seq<bv8>)
    requires Admissible(k, s)
    ensures |r| == |s|
  {
    if trials == 0 then Zeros(|s|) else Transform(k, s)
  }

  /**
   * The body of a benchmark function: a zeroed output buffer, `trials`
   * passes of the kernel (the benchmark state's iterations), then the
   * validation against the expected buffer.
   */
  method Benchmark(k: Kernel, data: array<bv8>, expected: array<bv8>, trials: nat) returns (v: Verdict)
    requires expected.Length == data.Length && Admissible(k, data[..])
    ensures v.Match? <==> Produced(k, data[..], trials) == expected[..]
    ensures v.Mismatch? ==>
      v.index < data.Length &&
      v.found == Produced(k, data[..], trials)[v.index] && v.expected == expected[v.index] &&
      v.found != v.expected &&
      forall j :: 0 <= j < v.index ==> Produced(k, data[..], trials)[j] == expected[j]
  {
    var out := new bv8[data.Length](_ => 0);
    assert out[..] == Zeros(data.Length);
    for t := 0 to trials
      invariant out[..] == Produced(k, data[..], t)
    {
      RunPass(k, data, out);
    }
    v := ValidateResult(out, expected);
  }

  /**
   * The program: generate SIZE bytes, compute the expected buffer, and
   * benchmark kernel k for a positive number of trials.  Validation
   * always succeeds.
   */
  method RunBenchmark(k: Kernel, trials: nat) returns (v: Verdict)
    requires trials > 0
    ensures v == Match
  {
    var data := GenerateData(Size);
    RampInDomain(Size);
    var expected := ComputeExpected(data);
    FullSizeScenario(k);
    v := Benchmark(k, data, expected, trials);
  }
}
