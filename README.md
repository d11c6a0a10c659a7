# sse-avx-benchmarks, modelled in Dafny

The program benchmarks eight implementations of one byte-buffer transform,
`out[i] = (uint8_t)(255.0f * (data[i] / 128.0f))`, over a buffer of
SIZE = 2 << 20 bytes filled with `i % 128`.  Two implementations are scalar
loops; six are SSE4.1, AVX2 and AVX-512 loops that load a group of 4, 8 or 16
bytes as one little-endian word, widen it to 32-bit lanes (PMOVZXBD), apply
the formula on float lanes, convert back with truncation, narrow the lanes to
bytes with a kernel-specific strategy and store one word.  After the timed
loop every benchmark compares its output with a precomputed expected buffer
and aborts on the first difference.

The model:

- `words.dfy` (module `Words`): little-endian 32-, 64- and 128-bit words over
  bytes, with both round trips.  These are the `uint32_t*`, `uint64_t*` and
  `__uint128_t*` views the kernels read and write through.
- `intrinsics.dfy` (module `Intrinsics`): the instructions the kernels use,
  with register lanes as sequences of bit-vectors.  These are MOVQ,
  PMOVZXBD, PEXTRB, PEXTRD, PACKUSDW, PACKUSWB, VPERM2I128 and VPMOVDB, plus
  the C++ `__m128i{v}`, signed `>> 32` and the truncation to `uint32_t`.
  They follow the Intel 64 and IA-32 Architectures Software Developer's Manual.
- `formula.dfy` (module `Formula`): the float step as exact integer
  arithmetic, the scalar reference, the generator and their properties.
- `kernels.dfy` (module `Kernels`): the eight kernels as a datatype.  It holds
  one function per narrowing strategy and per loop body, and `Transform`,
  the whole output of one pass as a function of the input.
- `equivalence.dfy` (module `Equivalence`): the widening and narrowing
  lemmas, and the theorem the benchmark checks at run time.  The theorem says
  that on every input of bytes at most 128 whose length is divisible by the
  kernel's group width, every kernel's pass equals the reference buffer.
- `benchmarks.dfy` (module `Benchmarks`): the imperative part of the program.
  It models the generator loop, the expected-buffer loop, the validating
  scan, one method per kernel that fills the output array in place, and the
  benchmark body that repeats the pass and validates.  Each loop is proved
  against the functions above.

### Float arithmetic

A lane `l` is a small non-negative integer, so every float operation is
exact:

- CVTDQ2PS represents `l` exactly.
- The division by NORM_VAL = 128, a power of two, is exact.
- The product with 255 is exact while `255 * l < 2^24`.

Truncation then gives `(255 * l) / 128`, which `Formula.ScaleLane` computes
on `bv32`.  The code divides before it multiplies, `255.0f * (x / 128.0f)`.
On these values that gives the same result as multiplying first.

### Inputs above 128

For a byte above 128, `255 * x / 128` is at least 256.  The scalar kernels
convert that float to `uint8_t`, which C++ leaves undefined.  The model
follows the code: it defines the reference only on bytes up to 128, and the
scalar kernels require such inputs.  The vector kernels are defined on every
input.  Outside that domain their narrowing strategies give different
results (`Equivalence.KernelsDivergeAbove128`), so "every kernel equals the
reference on all bytes 0..255" does not hold for this code.

The saturating packs are not a clamp to 0..255 on every 32-bit lane.
PACKUSWB reads its source words as signed, so lanes from 0x8000 to 0xFFFF
become 0.  They are a clamp only on lanes below 0x8000
(`Intrinsics.SaturateTwice`).  The lanes the float step produces never
reach 0x8000, so on those lanes the packs do clamp.

## Model

| member | source | states |
|---|---|---|
| Words.LowByte32 | main.cpp:106 | the per-byte truncation of a 32-bit value, as in the word store `outd[i] = v2` and in VPMOVDB (main.cpp:222): the byte equals the value's low eight bits |
| Words.Le32 | main.cpp:96 | definition: the load `ind[i]` through the `uint32_t` view, the four group bytes little-endian; meaning proved by Words.BytesOfLe32 and Words.Le32OfBytes |
| Words.BytesOf32 | main.cpp:106 | the store `outd[i] = v2` through the `uint32_t` view writes four bytes, the least significant first; round trips proved by Words.BytesOfLe32 and Words.Le32OfBytes |
| Words.Le64 | main.cpp:195 | definition: eight bytes read as a little-endian `uint64_t`, as `u8x32[0]` does; meaning proved by Words.BytesOfLe64 and Words.Le64OfBytes |
| Words.BytesOf64 | main.cpp:195 | the store `outd[i] = u8x32[0]` through the `uint64_t` view writes eight bytes, the least significant first; round trips proved by Words.BytesOfLe64 and Words.Le64OfBytes |
| Words.Le128 | main.cpp:252 | definition: sixteen bytes read as a little-endian `__uint128_t`, as the cast `(__uint128_t)u8x16` does; meaning proved by Words.BytesOfLe128 and Words.Le128OfBytes |
| Words.BytesOf128 | main.cpp:252 | the store through the `__uint128_t` view writes sixteen bytes, the least significant first; round trips proved by Words.BytesOfLe128 and Words.Le128OfBytes |
| Words.BytesOfLe32 | main.cpp:91-92 | reading four bytes through the `uint32_t` view and storing the word back gives the same bytes |
| Words.Le32OfBytes | main.cpp:91-92 | storing a `uint32_t` and reading it back gives the same word |
| Words.BytesOfLe64 | main.cpp:182-183 | the same round trip for the `uint64_t` view |
| Words.Le64OfBytes | main.cpp:182-183 | the same round trip for stored `uint64_t` words |
| Words.BytesOfLe128 | main.cpp:241-242 | the same round trip for the `__uint128_t` view |
| Words.Le128OfBytes | main.cpp:241-242 | the same round trip for stored `__uint128_t` words |
| Intrinsics.Zeros | main.cpp:89 | a freshly allocated `std::vector<uint8_t>(SIZE)` has SIZE bytes, all 0 |
| Intrinsics.XmmFromDword | main.cpp:97 | `__m128i{v}` is a 16-byte register whose low four bytes are v in little-endian order |
| Intrinsics.Loadl64 | main.cpp:187 | `_mm_loadl_epi64` is a 16-byte register whose low eight bytes are the loaded bytes |
| Intrinsics.Pmovzxbd | main.cpp:97 | PMOVZXBD yields `lanes` doublewords; lane k is at most 255 and its low byte is source byte k |
| Intrinsics.ZeroExtend | main.cpp:97 | one lane of PMOVZXBD: the byte zero-extended to a doubleword, at most 255 with the byte as its low eight bits |
| Intrinsics.LowBytes | main.cpp:222 | the low byte of every doubleword lane, one byte per lane, each equal to the lane's low eight bits |
| Intrinsics.QwordOfDwords | main.cpp:102-105 | definition: `u32x4[0]` and `u32x4[1]` on an `__m128i`, two doubleword lanes as one 64-bit element, the lower lane in the low half; meaning proved by Equivalence.NarrowManualInRange |
| Intrinsics.SarQword32 | main.cpp:102-104 | a signed 64-bit `>> 32`: the low half is the high half of the operand, the high half copies the sign bit |
| Intrinsics.TruncateToDword | main.cpp:106 | storing a 64-bit value to `uint32_t` keeps its low 32 bits |
| Intrinsics.XmmBytes | main.cpp:131-135 | the sixteen bytes of the register `u32x4` that PEXTRB indexes, doubleword k in bytes 4k .. 4k+3; meaning proved by Equivalence.NarrowExtractLowBytes |
| Intrinsics.Pextrb | main.cpp:132-135 | PEXTRB yields a value of at most 255 equal to the byte at index imm[3:0] |
| Intrinsics.Pextrd | main.cpp:164 | PEXTRD's result, stored, is the four bytes at doubleword imm[1:0] of the register |
| Intrinsics.Qword0 | main.cpp:195 | `reg[0]` on an integer vector, stored, is the register's first eight bytes |
| Intrinsics.SaturateToU16 | main.cpp:161 | definition: one lane of PACKUSDW, a signed doubleword saturated to an unsigned word; its effect with the next pack is proved by Intrinsics.SaturateTwice |
| Intrinsics.SaturateToU8 | main.cpp:162 | definition: one lane of PACKUSWB, a signed word saturated to an unsigned byte, so words from 0x8000 give 0; meaning proved by Intrinsics.SaturateTwice |
| Intrinsics.SaturateAllToU16 | main.cpp:161 | the lane-wise signed saturation to unsigned words keeps the length and applies the saturation to every lane |
| Intrinsics.SaturateAllToU8 | main.cpp:162 | the lane-wise signed saturation to unsigned bytes keeps the length and applies the saturation to every lane |
| Intrinsics.Packusdw | main.cpp:161 | PACKUSDW yields twice as many word lanes as each operand has doubleword lanes |
| Intrinsics.Packuswb | main.cpp:162 | PACKUSWB yields twice as many byte lanes as each operand has word lanes |
| Intrinsics.Select128 | main.cpp:192 | one 128-bit half of VPERM2I128's result, four lanes chosen by a four-bit control; meaning proved by Intrinsics.Vperm2i128SwapsHalves |
| Intrinsics.Vperm2i128 | main.cpp:192 | VPERM2I128 yields eight doubleword lanes |
| Intrinsics.Vpmovdb | main.cpp:222 | VPMOVDB stores the low byte of every lane in order and zeroes the rest of the destination |
| Intrinsics.Vperm2i128SwapsHalves | main.cpp:192 | control 0x01 with one source swaps its two 128-bit halves |
| Intrinsics.SaturateTwice | main.cpp:161-162 | the two packs on one lane: the identity up to 255, 255 up to 0x7FFF, 0 from 0x8000 |
| Formula.ScaleLane | main.cpp:98-100 | definition: CVTDQ2PS, `255.0f * (fx / NORM_VAL)` and CVTTPS2DQ on one lane, as the exact quotient (255 * l) / 128 on lanes up to 65793; meaning proved by Formula.ScaleLaneInDomain and Formula.ReferenceDefinedExactly |
| Formula.Reference | main.cpp:34 | definition: one element of the reference, `(uint8_t)(255.0f * (x / NORM_VAL))`, defined on x at most 128; meaning proved by Formula.ReferenceIsQuotient and Formula.ReferenceValues |
| Formula.FloatToU8 | main.cpp:34 | an in-range integral float converted to `uint8_t` keeps its value |
| Formula.ReferenceIsQuotient | main.cpp:34 | the reference element is the integer quotient (255 * x) / 128 |
| Formula.ScaleLaneInDomain | main.cpp:98-100 | the vector float step on a byte of at most 128 fits a byte and equals the reference element |
| Formula.ReferenceDefinedExactly | main.cpp:34 | the float step on a byte fits `uint8_t` if and only if the byte is at most 128 |
| Formula.ReferenceBelow255 | main.cpp:34 | on bytes below 128 the reference is at most 254, so the store never wraps |
| Formula.ReferenceValues | main.cpp:34 | the reference maps 0 to 0, x in 1..127 to 2x - 1, and 128 to 255 |
| Formula.ReferenceBuffer | main.cpp:31-36 | the expected buffer is as long as the input |
| Formula.Ramp | main.cpp:21-27 | the generated buffer has the requested length |
| Formula.RampInDomain | main.cpp:22-25 | every generated byte `i % 128` is below 128, so the input is in the reference's domain |
| Formula.Ramp16 | main.cpp:24-25 | the first sixteen generated bytes are 0, 1, ..., 15 |
| Formula.ReferenceOfRamp16 | main.cpp:31-36 | the expected bytes for the first sixteen inputs are 0, 1, 3, 5, ..., 29 |
| Kernels.Kernel | main.cpp:51-259 | definition: the eight benchmark functions, one constructor each; each is dispatched to its pass by Benchmarks.RunPass |
| Kernels.Width | main.cpp:95 | the group size N of the loop `i < SIZE / N`: 1, 4, 8 or 16 |
| Kernels.Admissible | main.cpp:87 | definition: the inputs a kernel accepts, a length with `SIZE % N == 0` and, for the scalar kernels, bytes of at most 128 where the conversion to `uint8_t` is defined; used as the precondition of Benchmarks.RunPass and Kernels.Transform |
| Kernels.Step | main.cpp:95-107 | an iteration of a vector kernel maps every group of its width to a group of the same width, namely the bytes the iteration stores |
| Kernels.WidenAndScale | main.cpp:97-100 | definition: PMOVZXBD of the low lanes, then the float step on every lane; yields one lane per input byte; meaning proved by Equivalence.WidenAndScaleInDomain |
| Kernels.NarrowManual | main.cpp:101-106 | definition: the shift/OR recomposition over the two 64-bit halves, stored as `uint32_t`; meaning proved by Equivalence.NarrowManualInRange and Equivalence.NarrowManualSpills |
| Kernels.NarrowExtract | main.cpp:131-135 | definition: PEXTRB of bytes 12, 8, 4 and 0 composed with shifts and ORs; meaning proved by Equivalence.NarrowExtractLowBytes |
| Kernels.NarrowPack | main.cpp:161-164 | definition: PACKUSDW, PACKUSWB, then PEXTRD of doubleword 0; meaning proved by Equivalence.NarrowPackSaturates |
| Kernels.NarrowAvx2 | main.cpp:192-195 | definition: the half swap, VPACKUSDW, VPACKUSWB, then 64-bit element 0; meaning proved by Equivalence.NarrowAvx2Saturates |
| Kernels.NarrowVpmovdb8 | main.cpp:222-223 | definition: VPMOVDB ymm to xmm, then 64-bit element 0; meaning proved by Equivalence.NarrowVpmovdb8LowBytes |
| Kernels.NarrowVpmovdb16 | main.cpp:251-252 | definition: VPMOVDB zmm to xmm, then the register as `__uint128_t`; meaning proved by Equivalence.NarrowVpmovdb16LowBytes |
| Kernels.ManualRecomposeBody | main.cpp:96-106 | definition: the word one iteration of sse_4u8_at_once_manual_recompose stores for the word it loads; meaning proved by Equivalence.GroupMatchesReference |
| Kernels.ExtractRecomposeBody | main.cpp:126-136 | definition: the word one iteration of sse_4u8_at_once_extract_recompose stores; meaning proved by Equivalence.GroupMatchesReference |
| Kernels.PackRecomposeBody | main.cpp:156-165 | definition: the word one iteration of sse_4u8_at_once_pack_recompose stores; meaning proved by Equivalence.GroupMatchesReference |
| Kernels.Avx8Body | main.cpp:187-195 | definition: the word one iteration of avx_8u8_at_once stores for the eight bytes it loads; meaning proved by Equivalence.GroupMatchesReference |
| Kernels.Avx512Recompose8Body | main.cpp:217-223 | definition: the word one iteration of avx_8u8_at_once_avx512_recompose stores; meaning proved by Equivalence.GroupMatchesReference |
| Kernels.Avx512x16Body | main.cpp:246-252 | definition: the word one iteration of avx_16u8_at_once_avx512 stores for the sixteen bytes it loads; meaning proved by Equivalence.GroupMatchesReference |
| Kernels.GroupResult | main.cpp:95-107 | the bytes one iteration of a vector kernel stores, as many as it loads; on bytes of at most 128 they are the reference's (Equivalence.GroupMatchesReference) |
| Kernels.Grouped | main.cpp:95-107 | definition: the closed form of a group loop, f on every whole group in order; length proved by Kernels.GroupedLength, content by Equivalence.GroupedStep and Equivalence.GroupedMatchesReference |
| Kernels.GroupedLength | main.cpp:95 | a loop over SIZE / N groups writes exactly as many bytes as it reads |
| Kernels.Transform | main.cpp:94-107 | one pass produces an output as long as its input |
| Kernels.MultipleOfMod | main.cpp:87 | `SIZE % N == 0` means the buffer is a whole number of groups |
| Equivalence.WidenWord32 | main.cpp:96-97 | the loaded `uint32_t`, widened, has byte k of the group, zero-extended, in lane k |
| Equivalence.WidenLoadl64 | main.cpp:187-188 | the loaded 64-bit group, widened, has byte k, zero-extended, in lane k |
| Equivalence.WidenAndScaleInDomain | main.cpp:97-100 | on bytes of at most 128 every lane after the float step is at most 255, and the lanes' low bytes are the reference buffer of the group |
| Equivalence.NarrowManualInRange | main.cpp:101-106 | the shift/OR recomposition stores lanes 0..3 in bytes 0..3 when every lane is at most 255 |
| Equivalence.NarrowManualSpills | main.cpp:101-106 | without that bound it does not: lane 1 = 256 spills into byte 2 |
| Equivalence.NarrowExtractLowBytes | main.cpp:131-136 | the PEXTRB recomposition stores the low byte of lane k in byte k, for any lanes |
| Equivalence.NarrowPackSaturates | main.cpp:161-164 | the two packs and PEXTRD store lane k, saturated twice, in byte k |
| Equivalence.NarrowAvx2Saturates | main.cpp:192-195 | after the half swap the AVX2 packs store lanes 0..7, saturated twice, in bytes 0..7 in order |
| Equivalence.NarrowVpmovdb8LowBytes | main.cpp:222-223 | VPMOVDB (ymm) and `[0]` store the low byte of lane k in byte k |
| Equivalence.NarrowVpmovdb16LowBytes | main.cpp:251-252 | VPMOVDB (zmm) and the `__uint128_t` cast store the low byte of lane k in byte k |
| Equivalence.SaturateTwiceInRange | main.cpp:161-162 | on lanes of at most 255 the double saturation is each lane's low byte |
| Equivalence.GroupMatchesReference | main.cpp:96-106 | one iteration of any vector kernel on a group of bytes at most 128 stores the reference's bytes |
| Equivalence.GroupedStep | main.cpp:95-106 | the output after the iteration at byte offset p is the output so far followed by that iteration's group |
| Equivalence.GroupedMatchesReference | main.cpp:94-107 | a loop whose iteration agrees with the reference on every group agrees with the reference on the whole buffer |
| Equivalence.KernelMatchesReference | main.cpp:94-110 | on any input of bytes at most 128 whose length is divisible by N, the kernel's pass is the expected buffer, which is what `validate_result` checks |
| Equivalence.KernelsAgree | main.cpp:94-107 | any two kernels produce the same output on every input of bytes at most 128 whose length both widths divide (above 128 they can differ, Equivalence.KernelsDivergeAbove128) |
| Equivalence.FullSizeScenario | main.cpp:20-36 | on the SIZE generated bytes every kernel's pass is the expected buffer |
| Equivalence.Ramp16Scenario | main.cpp:21-36 | on sixteen generated bytes every kernel yields 0, 1, 3, 5, ..., 29 |
| Equivalence.KernelsDivergeAbove128 | main.cpp:126-165 | on the byte 255 the extract, pack and shift/OR kernels store 252, 255 and a word with a bit spilled into byte 2 |
| Benchmarks.Verdict | main.cpp:43-45 | definition: what `validate_result` reports, a normal return or the first differing index with the found and expected bytes; meaning proved by Benchmarks.ValidateResult |
| Benchmarks.GenerateData | main.cpp:21-27 | the generator loop fills a fresh buffer with `i % 128` at every index |
| Benchmarks.ComputeExpected | main.cpp:31-36 | the expected-buffer loop fills a fresh buffer with the reference of every input byte |
| Benchmarks.ValidateResult | main.cpp:39-47 | returns normally exactly when the two buffers are equal; otherwise it reports the first differing index with the found and expected bytes there |
| Benchmarks.ValidateTwice | main.cpp:39-47 | validating changes nothing: a second call reports what the first did, and a matching pair passes both times |
| Benchmarks.Store | main.cpp:106 | a store through a word view writes bytes off .. off+N-1 and leaves every other byte unchanged |
| Benchmarks.SplitAfterStore | main.cpp:106 | after such a store the output up to its end is the old prefix followed by the stored bytes, and every later byte is unchanged |
| Benchmarks.NaiveDirectPass | main.cpp:54-56 | the scalar loop leaves the reference buffer in the output |
| Benchmarks.DataPtrPass | main.cpp:72-74 | the loop over the `ind` and `outd` views leaves the reference buffer in the output |
| Benchmarks.GroupedPass | main.cpp:95-107 | the loop over SIZE / N groups leaves, in the output, the iteration applied to every group in order |
| Benchmarks.StoreGroup | main.cpp:96-106 | one iteration extends the finished part of the output by exactly the next group's result and leaves every later byte unchanged |
| Benchmarks.SseManualRecomposePass | main.cpp:95-107 | under `SIZE % 4 == 0` the loop leaves the kernel's output, one group of 4 per iteration; on bytes of at most 128, such as the generated ones, that output is the expected buffer |
| Benchmarks.SseExtractRecomposePass | main.cpp:125-137 | under `SIZE % 4 == 0` the loop leaves the kernel's output, one group of 4 per iteration; on bytes of at most 128, such as the generated ones, that output is the expected buffer |
| Benchmarks.SsePackRecomposePass | main.cpp:155-166 | under `SIZE % 4 == 0` the loop leaves the kernel's output, one group of 4 per iteration; on bytes of at most 128, such as the generated ones, that output is the expected buffer |
| Benchmarks.Avx8Pass | main.cpp:186-196 | under `SIZE % 8 == 0` the loop leaves the kernel's output, one group of 8 per iteration; on bytes of at most 128, such as the generated ones, that output is the expected buffer |
| Benchmarks.Avx512Recompose8Pass | main.cpp:216-224 | under `SIZE % 8 == 0` the loop leaves the kernel's output, one group of 8 per iteration; on bytes of at most 128, such as the generated ones, that output is the expected buffer |
| Benchmarks.Avx512x16Pass | main.cpp:245-253 | under `SIZE % 16 == 0` the loop leaves the kernel's output, one group of 16 per iteration; on bytes of at most 128, such as the generated ones, that output is the expected buffer |
| Benchmarks.RunPass | main.cpp:94-107 | one pass of any kernel leaves that kernel's output |
| Benchmarks.Produced | main.cpp:89-107 | what the output holds after the timed loop is as long as the input |
| Benchmarks.Benchmark | main.cpp:86-112 | after the repeated passes the validation passes exactly when the output equals the expected buffer; a mismatch is the first differing index, with the bytes found and expected there |
| Benchmarks.RunBenchmark | main.cpp:21-61 | with the generated input and its expected buffer, validation succeeds for every kernel and every positive number of timed iterations |

## Left out

- The Google Benchmark framework: the `benchmark::State` loop, `DoNotOptimize`, `BENCHMARK` registration and `BENCHMARK_MAIN`. They are library plumbing; the timed loop is modelled as a number `trials` of repeated passes.
- `std::cerr`, `std::abort` and `std::source_location` in `validate_result`. They are I/O and process control; a mismatch is a returned `Verdict` carrying the index and the two bytes.
- The `assert(result.size() == SIZE)` in `validate_result` and the `assert(SIZE % N == 0)` in the vector kernels are preconditions of the methods that model them.
- IEEE-754 single precision in general: rounding, and the undefined conversion of an out-of-range float to `uint8_t`. Only the exact integer computation on lanes up to 65793 is modelled, and the reference is left undefined above 128.
- `_mm512_cvtepu32_ps` and `_mm512_cvttps_epu32` (the unsigned conversions of the 16-lane kernel) are modelled by the same `Formula.ScaleLane` as the signed ones. On lanes of at most 255 the two agree.
- The CPU feature macros (`__AVX512F__`, `__AVX512VL__`, `ENABLE_AVX512_TESTS`). They are build configuration; both AVX-512 kernels are always part of the model.
- `reinterpret_cast` aliasing, alignment (`_mm_load_epi64`, `__m128i_u`) and `std::vector` allocation. The buffers are byte arrays read and written one little-endian group at a time.
- Benchmarks.GroupedPass: the C++ loops count groups `i < SIZE / N` and store `outd[i]`. The model counts bytes at the offset `p = N * i`. The six vector kernels share this one loop, parameterised by their iteration function, instead of six copies of it.
- SIZE: the passes take any length divisible by the group width. `Formula.Size` (= 2 << 20) is used only by `Equivalence.FullSizeScenario` and `Benchmarks.RunBenchmark`.
