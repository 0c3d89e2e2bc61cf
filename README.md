# SIMD double-array kernels, modelled in Dafny

The library exports a set of kernels over arrays of doubles. Each is written as a
loop that walks its buffers in strides of one 256-bit batch (`simd_size`, four
doubles). The kernels are:

- elementwise: add, subtract, multiply, square, squared difference, `a + b*x`,
  the absolute difference-sum and the absolute ratio;
- a whole-array root mean square, which keeps one partial sum per lane and adds
  the lanes at the end;
- a windowed root mean square, which pads the ragged tail of each window with
  zeros and divides by the window's true length;
- an allocator that rounds the element count up to a multiple of four with
  `(n + 3) & ~3`.

`vector_simde_avx2.cpp` holds the portable versions, written with aligned batch
loads and stores. `vector_add.c` holds two older raw-AVX loops and the same
allocator.

The model works on exact `real` numbers. The lane width `W` is the constant 4.
A batch is a `seq<real>` of length `W`. Lane operations are the exact scalar
operations in each lane.

Buffers are `array<real>`. Each kernel is a method that keeps the source loop:
`i` starts at 0, runs while `i < n` and steps by `W`. Its contract states what
every processed index holds afterwards. A kernel processes every index below
`RoundUp(n)`, the first multiple of `W` at or above `n`, so each buffer must be at
least that long.

Alignment is a precondition only. An aligned load or store needs an index that is
a multiple of `W`, in a buffer whose base is taken to be aligned. That holds for
the caller's buffers from `allocate_aligned_memory`, but not necessarily for the
`std::vector` the reductions store their accumulators to (see "## Left out").
`W` is 4 throughout. That is `simd_size` for AVX2, and it matches the literal
4 in the allocator's `(n + 3) & ~3`. A padded buffer covers every batch a kernel
touches only because the two agree. On a target where
`xsimd::simd_type<double>::size` is 8, such as AVX-512 (the width `ALIGN` is
sized for), `RoundUp` to a multiple of 4 would not cover the last batch. `size_t` is
`SizeT`, the integers below 2^64. Addition and multiplication that can wrap are
written out modulo 2^64. `&` and `~` are computed bit by bit on the low 64 bits.

The files:

- `bits.dfy`: `size_t` arithmetic and the bitwise operators.
- `lanes.dfy`: batches, `RoundUp`, loads, stores and lane arithmetic.
- `reductions.dfy`:
  - the sequential sum of squares;
  - the lane accumulators of the reductions;
  - zero padding.
- `windows.dfy`: the index arithmetic of the windowed reduction.
- `elementwise.dfy`: the value each elementwise kernel stores at one index, what that value means, and how each kernel's lane expression computes it.
- `allocation.dfy`: the allocator's rounding.
- `simd_kernels.dfy`: the portable kernels.
- `avx_kernels.dfy`: the raw-AVX kernels.

## Model

| member | source | states |
|---|---|---|
| Lanes.RoundUp | vector_simde_avx2.cpp:68 | the index where a loop `i < n; i += W` stops is a multiple of W, at least `n` and below `n + W` |
| Lanes.RoundUpIsLeast | vector_add.c:6 | no multiple of W at or above `n` lies below `RoundUp(n)`, so the stride-W loop stops at the first one |
| Lanes.AlignedBatchFits | vector_simde_avx2.cpp:68-73 | a batch that starts at an aligned index below `n` ends by `RoundUp(n)`, so every load and store stays inside a buffer of the padded length |
| Lanes.StoreAligned | vector_simde_avx2.cpp:72 | `store_aligned` writes the W lanes at `i..i+W` and leaves every other element unchanged |
| Lanes.StoreUnaligned | vector_add.c:10 | `_mm256_storeu_pd` writes the W lanes at `i..i+W` and leaves every other element unchanged |
| Lanes.LoadUnaligned | vector_simde_avx2.cpp:240 | `load_unaligned` at `i` gives the batch whose lane `k` is element `i + k`, for any `i` with `i + W` inside the buffer; `_mm256_loadu_pd` at vector_add.c line 7 loads the same way |
| Lanes.LoadAligned | vector_simde_avx2.cpp:69-70 | `load_aligned` gives the same lanes as `LoadUnaligned`, but only at an index that is a multiple of W (lines 95, 120, 145, 197 and 234 load the same way) |
| Lanes.Broadcast | vector_simde_avx2.cpp:332 | `broadcast(x)` puts `x` in every lane; lines 195 and 229 broadcast 0.0 to start the accumulators |
| Lanes.Add | vector_simde_avx2.cpp:71 | batch `+` adds lane by lane: lane `k` of the result is `u[k] + v[k]` |
| Lanes.Sub | vector_simde_avx2.cpp:97 | batch `-` subtracts lane by lane: lane `k` of the result is `u[k] - v[k]` |
| Lanes.Mul | vector_simde_avx2.cpp:122 | batch `*` multiplies lane by lane: lane `k` of the result is `u[k] * v[k]` |
| Lanes.Div | vector_simde_avx2.cpp:284 | batch `/` divides lane by lane, for divisors with no zero lane: lane `k` of the result is `u[k] / v[k]` |
| Lanes.Abs | vector_simde_avx2.cpp:149-151 | `xsimd::abs` takes the absolute value lane by lane: lane `k` of the result is non-negative and equals `u[k]` or `-u[k]` |
| Bits.WrapAdd | vector_simde_avx2.cpp:222 | a `size_t` sum is the exact sum when it fits, and the sum minus 2^64 otherwise |
| Bits.WrapMul | vector_simde_avx2.cpp:351 | a `size_t` product is the exact product when it fits, and otherwise the product less a multiple of 2^64 |
| Bits.BitAnd | vector_simde_avx2.cpp:350 | bitwise `&` on `w` bits, computed bit by bit; the result is at most either operand |
| Bits.BitNotComplements | vector_simde_avx2.cpp:350 | bitwise `~` on a `w`-bit number sets exactly the bits the number leaves clear: `x + ~x == 2^w - 1` and `x & ~x == 0` |
| Bits.ClearLowTwoBits | vector_simde_avx2.cpp:350 | for every 64-bit `m`, `m & ~3` is `m` with its two low bits cleared, `m - m % 4` |
| Allocation.PaddedCountAsWritten | vector_simde_avx2.cpp:350 | `(n + 3) & ~3` in `size_t`, wrap included, is the largest multiple of 4 at or below the wrapped sum `n + 3`; `vector_add.c` line 24 is the same expression |
| Allocation.RequestedBytesAsWritten | vector_simde_avx2.cpp:351 | `padded_n * sizeof(double)` in `size_t`, wrap included, is always a multiple of 8, and is the exact byte count whenever that fits |
| Allocation.PaddedCountIsRoundUp | vector_simde_avx2.cpp:350 | whenever `n + 3` fits in `size_t`, `(n + 3) & ~3` equals `RoundUp(n)`: a multiple of 4, at least `n`, below `n + 4`; `vector_add.c` line 24 rounds the same way |
| Allocation.PaddedCountWraps | vector_simde_avx2.cpp:350 | for every `n > 2^64 - 4`, `n + 3` wraps and the padded count is 0 |
| Allocation.RequestedBytesWrap | vector_simde_avx2.cpp:351 | once the padded count times 8 reaches 2^64, the allocator is asked for exactly `RoundUp(n) * 8` modulo 2^64 bytes, which is fewer than the padded count needs; for `n = 2^61` it is asked for 0 bytes, for `n = 2^61 + 1` for 32 |
| Allocation.CheckedPaddedCount | vector_simde_avx2.cpp:350-351 | the padded count is returned exactly when its byte size fits in `size_t`, and it is then `RoundUp(n)` |
| Allocation.AllocateAlignedMemory | vector_simde_avx2.cpp:349-352 | the allocator as intended (the corrected half of the two allocation findings): a fresh buffer of `RoundUp(n)` elements, or null when the request does not fit in `size_t`, where the source would hand back a buffer sized by the wrapped request; `vector_add.c` lines 23-26 allocate the same way |
| SimdKernels.AddVectors | vector_simde_avx2.cpp:68-73 | `result[i] == a[i] + b[i]` for every `i` below `RoundUp(n)`; no other element of `result` changes; `a` and `b` are unchanged unless one of them is `result` |
| SimdKernels.SubVectors | vector_simde_avx2.cpp:94-99 | `result[i] == a[i] - b[i]` below `RoundUp(n)`; nothing else is written |
| SimdKernels.MulVectors | vector_simde_avx2.cpp:119-124 | `result[i] == a[i] * b[i]` below `RoundUp(n)`; nothing else is written |
| SimdKernels.ComputeAbsDiffSum | vector_simde_avx2.cpp:144-157 | `result[i] == abs(abs(a[i] + b[i]) - abs(a[i]) - abs(b[i]))` below `RoundUp(n)`; nothing else is written |
| SimdKernels.SquareVector | vector_simde_avx2.cpp:175-179 | `result[i] == input[i] * input[i]` below `RoundUp(n)`; `input` is unchanged unless it is `result` |
| SimdKernels.ComputeAbsRatio | vector_simde_avx2.cpp:273-286 | `result[i] == abs(a[i] + b[i]) / (abs(a[i]) + abs(b[i]))` below `RoundUp(n)`; nothing else is written |
| SimdKernels.SquaredDifference | vector_simde_avx2.cpp:306-312 | `result[i] == (a[i] - b[i]) * (a[i] - b[i])` below `RoundUp(n)`; nothing outside `result` is written |
| SimdKernels.ComputeAPlusBx | vector_simde_avx2.cpp:332-340 | `result[i] == a + b * x[i]` below `RoundUp(n)`, with `a` and `b` broadcast once before the loop; `x` is unchanged unless it is `result` |
| SimdKernels.AccumulateSquares | vector_simde_avx2.cpp:195-200 | after the loop, the W lane accumulators are `LaneSums` of the `RoundUp(n)` elements the loop reads |
| SimdKernels.HorizontalSum | vector_simde_avx2.cpp:202-207 | storing the accumulators and adding them in order gives their left-to-right sum |
| SimdKernels.ComputeRmsFull | vector_simde_avx2.cpp:189-210 | before the square root, the value is the sum of the squares of the `RoundUp(n)` elements read, divided by `n` |
| SimdKernels.ComputeRmsFullPadded | vector_simde_avx2.cpp:195-209 | with the last batch zero padded, the value is the sum of the squares of exactly `input[0..n)`, divided by `n` |
| SimdKernels.LoadZeroPadded | vector_simde_avx2.cpp:236-240 | the ragged-tail temporary holds the `limit - j` real elements in its low slots and zeros in the rest |
| SimdKernels.LoadWindowBatch | vector_simde_avx2.cpp:232-241 | the batch at offset `j` of a window is the batch at `j` of the window's elements followed by zeros |
| SimdKernels.WindowLaneSums | vector_simde_avx2.cpp:229-244 | a window's lane accumulators are `LaneSums` of its `limit` elements zero padded to a multiple of W |
| SimdKernels.WindowMeanSquareAt | vector_simde_avx2.cpp:229-251 | the value computed for the window at `i` is `WindowMeanSquare` of that window |
| SimdKernels.ComputeRmsWindowed | vector_simde_avx2.cpp:220-254 | the fresh output has `NumWindows` slots; slot `m` holds the mean square of window `m` over its own `limit` elements; every slot is written exactly once |
| Reductions.ZeroPadBatch | vector_simde_avx2.cpp:233-241 | a batch of the zero-padded window is a full batch of the window, or its remaining elements followed by zeros |
| Reductions.SumSquaresAppend | vector_simde_avx2.cpp:198-199 | the sum of squares of a concatenation is the sum of the two parts' sums |
| Reductions.ZeroPadAddsNothing | vector_simde_avx2.cpp:236-243 | zero padding adds nothing to a sum of squares |
| Reductions.SumOfAdd | vector_simde_avx2.cpp:199 | the horizontal sum of a lane-wise sum is the sum of the two horizontal sums |
| Reductions.SumOfSquareBatch | vector_simde_avx2.cpp:198 | the horizontal sum of a squared batch is the batch's sum of squares |
| Reductions.LaneSumsTotal | vector_simde_avx2.cpp:195-207 | adding the lane accumulators horizontally gives exactly the sequential sum of squares of every element read |
| Reductions.LaneSumsPerLane | vector_simde_avx2.cpp:195-200 | lane `k` accumulates the squares of the elements at indices `k, k+W, k+2W, ...` and of no others |
| Reductions.PaddingInFullSum | vector_simde_avx2.cpp:196-200 | the full-array sum over `RoundUp(n)` elements is the sum over the first `n` plus the squares of the padding; for `n` a multiple of W there is no padding |
| Reductions.PaddingChangesFullMeanSquare | vector_simde_avx2.cpp:196-209 | five zeros followed by padding `[1, 0, 0]` give mean square 1/5 where the first five elements give 0 |
| Reductions.SumSquaresOfConstant | vector_simde_avx2.cpp:209 | `n` copies of `v` have sum of squares `n * v * v`, so their mean square is `v * v` |
| Windows.NumWindows | vector_simde_avx2.cpp:222 | the window count as intended; it never exceeds `n` |
| Windows.NumWindowsAsWritten | vector_simde_avx2.cpp:222 | `(n + window - 1) / window` in `size_t` is the floor quotient of the numerator when it fits, and of the numerator minus 2^64 when it wraps |
| Windows.NumWindowsIsCeiling | vector_simde_avx2.cpp:222 | the window count is the ceiling of `n / window`, the least count whose windows cover `n` elements |
| Windows.NumWindowsAsWrittenAgrees | vector_simde_avx2.cpp:222 | whenever `n + window - 1` fits in `size_t`, `(n + window - 1) / window` is that ceiling |
| Windows.NumWindowsAsWrittenWraps | vector_simde_avx2.cpp:222 | for `n = 10` and `window = 2^64 - 1`, the formula as written gives 0 windows where one is needed |
| Windows.Limit | vector_simde_avx2.cpp:230 | `limit == min(window, n - i)`, positive, and `i + limit <= n`, so each window reads only indices below `n` |
| Windows.WindowSlot | vector_simde_avx2.cpp:228-251 | window `m` starts below `n`, writes slot `m`, and ends where window `m + 1` starts or at `n` |
| Windows.SlotInRange | vector_simde_avx2.cpp:251 | every write index `i / window` with `i < n` a multiple of `window` is below the window count, and maps back to `i` |
| Windows.StartsDoNotWrap | vector_simde_avx2.cpp:228-230 | for `n <= 2^63`, neither `i + window` nor `i += window` wraps at any window start |
| Windows.SingleWindow | vector_simde_avx2.cpp:222-251 | a window at least as long as the input gives one value, the mean square of the whole input |
| Windows.RaggedTail | vector_simde_avx2.cpp:230-251 | ten elements in windows of four give windows of 4, 4 and 2 elements; the last value is over its two real elements only |
| Elementwise.AbsDiffSumIsTriangleGap | vector_simde_avx2.cpp:148-154 | the absolute difference-sum is the triangle-inequality gap `abs(a) + abs(b) - abs(a + b)`: 0 for equal signs, otherwise twice the smaller magnitude |
| Elementwise.AbsRatioBounds | vector_simde_avx2.cpp:277-284 | the absolute ratio lies in `[0, 1]`, is 1 exactly for equal signs, and is one minus the difference-sum's share of `abs(a) + abs(b)` |
| Elementwise.SquaredDifferenceFacts | vector_simde_avx2.cpp:309-310 | a squared difference is non-negative, zero exactly when the inputs are equal, and symmetric |
| Elementwise.SquareHasRootAbs | vector_simde_avx2.cpp:209 | the only non-negative `r` with `r * r == x * x` is `abs(x)`, so the root mean square of a constant `v` is `abs(v)` |
| Elementwise.AffineInverse | vector_simde_avx2.cpp:337-338 | for `b != 0`, `(r - a) / b` recovers `x` from `r = a + b * x` |
| AvxKernels.AddVectors | vector_add.c:4-12 | `result[i] == a[i] + b[i]` for every `i` below `RoundUp(n)`, with the loop invariant keeping `i` a multiple of 4; `a` and `b` are read only |
| AvxKernels.SquareVector | vector_add.c:14-21 | `result[i] == input[i] * input[i]` below `RoundUp(n)`; `input` is read only |
| AvxKernels.LoopsEndAtPaddedLength | vector_add.c:16 | the stride-4 loop ends at the first multiple of 4 at or above `n`, i.e. at `RoundUp(n)` |

## Left out

- IEEE-754 doubles are not modelled. There is no rounding, no NaN or infinity, and no sign-bit `abs`. With exact numbers the lane-interleaved sum equals the sequential sum, which rounding does not guarantee.
- SimdKernels.ComputeRmsFull: returns the mean square; the final `std::sqrt` is not modelled. `Elementwise.SquareHasRootAbs` states the one fact about the root that is used.
- SimdKernels.ComputeRmsWindowed: stores each window's mean square, not its square root.
- SimdKernels.ComputeRmsFull: requires `n > 0`, and SimdKernels.ComputeRmsWindowed requires `window > 0`. For those inputs the source divides by zero.
- SimdKernels.ComputeRmsWindowed: requires `window` to be a multiple of W, or shorter than W, or `n < window + W`. The inputs excluded are exactly those where `window > W`, `window` is not a multiple of W, and `n >= window + W`. In that case the second window starts at `window`, which is not a multiple of W, and still has at least W elements, so the source calls `load_aligned` at a misaligned index. When `n < window + W`, every window after the first has fewer than W elements and goes only through `temp`.
- SimdKernels.ComputeRmsWindowed: allocates the intended `NumWindows` slots (see Findings). It does not model failure of the `_mm_malloc` call, nor wrap of `num_windows * sizeof(double)`.
- SimdKernels.ComputeAbsRatio: requires `abs(a[i]) + abs(b[i]) != 0` at every processed index. Exact division by zero has no value; the IEEE result (NaN) is out of scope.
- The elementwise kernels, ComputeRmsFull and ComputeRmsWindowed take `n` as a `size_t` but count with an unbounded index. The source's `i += simd_size` and `i += window` could wrap only for `n` within one stride of 2^64; `Windows.StartsDoNotWrap` shows the windowed loop does not wrap for `n <= 2^63`.
- Actual memory alignment is not modelled, and neither are `_mm_malloc`, `_mm_free`, `__builtin_assume_aligned` and the address arithmetic of the loops. The allocator is abstract: it returns a fresh array of the padded length with unspecified contents.
- `free_aligned_memory` is not modelled. It only releases memory.
- Allocation.AllocateAlignedMemory: models the allocator as intended. It returns null exactly when the padded byte count overflows `size_t`. Where that happens, the source instead asks `_mm_malloc` for the wrapped size: 32 bytes for `n = 2^61 + 1`. The source behaviour is what `Allocation.RequestedBytesWrap` and `Allocation.PaddedCountWraps` state. The model also never fails when the request fits, whereas `_mm_malloc` can return null when memory is exhausted; failure on exhaustion is not modelled.
- SimdKernels.HorizontalSum: stores the accumulators with `StoreAligned` to a fresh W-element buffer, which the model takes to be aligned. In the source that buffer is a `std::vector<double>` (vector_simde_avx2.cpp lines 202-203 and 245-246). Its default allocation is guaranteed only the alignment of `std::max_align_t`, usually 16 bytes, while a 256-bit `store_aligned` needs 32. The model therefore does not capture that this store may be misaligned.
- The `printf` calls in `add_vectors` are not modelled. They are debugging output.
- The xsimd and AVX intrinsics are modelled as lane-wise operations on W consecutive elements. The vendored `simde` headers are not part of this model.
- `main.c` is a demonstration driver and is not part of this model.

## Findings

| source | as written | input that shows it | evidently intended | confidence | as-written member | corrected member |
|---|---|---|---|---|---|---|
| vector_simde_avx2.cpp:222 | `num_windows = (n + window - 1) / window` wraps in `size_t` when `n + window - 1 >= 2^64` | `n = 10`, `window = 2^64 - 1`: 0 slots are allocated, then slot 0 is written | the ceiling of `n / window`, `n == 0 ? 0 : (n - 1) / window + 1` | high for the arithmetic; the input is extreme; not executed | Windows.NumWindowsAsWrittenWraps | Windows.NumWindowsIsCeiling |
| vector_simde_avx2.cpp:350 | `padded_n = (n + 3) & ~3` wraps in `size_t` when `n + 3 >= 2^64` | `n = 2^64 - 1` gives padded count 0 | a padded count of `RoundUp(n)`, or a failed allocation when it does not fit | high for the arithmetic; the input is extreme; not executed | Allocation.PaddedCountWraps | Allocation.CheckedPaddedCount |
| vector_simde_avx2.cpp:351 | `padded_n * sizeof(double)` wraps in `size_t` once it reaches 2^64 | `n = 2^61` gives a request of 0 bytes | a request that covers `RoundUp(n)` doubles, or a failed allocation | high for the arithmetic; the input is extreme; not executed | Allocation.RequestedBytesWrap | Allocation.CheckedPaddedCount |
| vector_simde_avx2.cpp:196-209 | `compute_rms_full` adds the squares of all `RoundUp(n)` elements it loads, then divides by `n` | `n = 5` with elements `[0, 0, 0, 0, 0]` and padding `[1, 0, 0]` (left uninitialised by `_mm_malloc`): 1/5 instead of 0 | the mean square of the `n` elements, with the tail zero padded as in `compute_rms_windowed` | medium, since callers may zero the padding; not executed | Reductions.PaddingChangesFullMeanSquare | SimdKernels.ComputeRmsFullPadded |
