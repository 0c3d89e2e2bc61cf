/** The kernels of the portable-SIMD library: each walks its buffers in strides
    of W with aligned batch loads and stores. Buffers are `array<real>` whose base
    is taken to be aligned; a kernel with `n` elements touches the indices below
    `RoundUp(n)`, so every buffer must be at least that long (an allocation of
    `n` through `AllocateAlignedMemory` is).

    `result` may be the same array as an input: each batch is loaded before the
    store to the same indices, so the contracts speak of the inputs' values on
    entry. */
module SimdKernels {
  import opened Bits
  import opened Lanes
  import opened Reductions
  import opened Windows
  import opened Elementwise

  /** `add_vectors`: `result[i] = a[i] + b[i]` below `RoundUp(n)`. */
  method AddVectors(a: array<real>, b: array<real>, result: array<real>, n: SizeT)
    requires RoundUp(n) <= a.Length && RoundUp(n) <= b.Length && RoundUp(n) <= result.Length
    modifies result
    ensures forall i :: 0 <= i < RoundUp(n) ==> result[i] == old(a[i]) + old(b[i])
    ensures forall i :: RoundUp(n) <= i < result.Length ==> result[i] == old(result[i])
    ensures a != result ==> a[..] == old(a[..])
    ensures b != result ==> b[..] == old(b[..])
  {
    var i: nat := 0;
    while i < n
      invariant Aligned(i) && i <= RoundUp(n)
      invariant forall j {:trigger result[j]} :: 0 <= j < i ==> result[j] == old(a[j]) + old(b[j])
      invariant forall j :: i <= j < result.Length ==> result[j] == old(result[j])
      invariant forall j :: i <= j < a.Length ==> a[j] == old(a[j])
      invariant forall j :: i <= j < b.Length ==> b[j] == old(b[j])
    {
      AlignedBatchFits(i, n);
      var va := LoadAligned(a, i);
      var vb := LoadAligned(b, i);
      var vresult := Add(va, vb);
      assert forall j :: i <= j < i + W ==> va[j - i] == old(a[j]) && vb[j - i] == old(b[j]);
      StoreAligned(result, i, vresult);
      forall j | i <= j < i + W
        ensures result[j] == old(a[j]) + old(b[j])
      {
        assert result[j] == vresult[j - i];
      }
      AlignedStep(i, W);
      i := i + W;
    }
    RoundUpIsLeast(n, i);
  }

  /** `sub_vectors`: `result[i] = a[i] - b[i]` below `RoundUp(n)`. */
  method SubVectors(a: array<real>, b: array<real>, result: array<real>, n: SizeT)
    requires RoundUp(n) <= a.Length && RoundUp(n) <= b.Length && RoundUp(n) <= result.Length
    modifies result
    ensures forall i :: 0 <= i < RoundUp(n) ==> result[i] == old(a[i]) - old(b[i])
    ensures forall i :: RoundUp(n) <= i < result.Length ==> result[i] == old(result[i])
    ensures a != result ==> a[..] == old(a[..])
    ensures b != result ==> b[..] == old(b[..])
  {
    var i: nat := 0;
    while i < n
      invariant Aligned(i) && i <= RoundUp(n)
      invariant forall j {:trigger result[j]} :: 0 <= j < i ==> result[j] == old(a[j]) - old(b[j])
      invariant forall j :: i <= j < result.Length ==> result[j] == old(result[j])
      invariant forall j :: i <= j < a.Length ==> a[j] == old(a[j])
      invariant forall j :: i <= j < b.Length ==> b[j] == old(b[j])
    {
      AlignedBatchFits(i, n);
      var va := LoadAligned(a, i);
      var vb := LoadAligned(b, i);
      var vresult := Sub(va, vb);
      assert forall j :: i <= j < i + W ==> va[j - i] == old(a[j]) && vb[j - i] == old(b[j]);
      StoreAligned(result, i, vresult);
      forall j | i <= j < i + W
        ensures result[j] == old(a[j]) - old(b[j])
      {
        assert result[j] == vresult[j - i];
      }
      AlignedStep(i, W);
      i := i + W;
    }
    RoundUpIsLeast(n, i);
  }

  /** `mul_vectors`: `result[i] = a[i] * b[i]` below `RoundUp(n)`. */
  method MulVectors(a: array<real>, b: array<real>, result: array<real>, n: SizeT)
    requires RoundUp(n) <= a.Length && RoundUp(n) <= b.Length && RoundUp(n) <= result.Length
    modifies result
    ensures forall i :: 0 <= i < RoundUp(n) ==> result[i] == Product(old(a[i]), old(b[i]))
    ensures forall i :: RoundUp(n) <= i < result.Length ==> result[i] == old(result[i])
    ensures a != result ==> a[..] == old(a[..])
    ensures b != result ==> b[..] == old(b[..])
  {
    var i: nat := 0;
    while i < n
      invariant Aligned(i) && i <= RoundUp(n)
      invariant forall j {:trigger result[j]} :: 0 <= j < i ==> result[j] == Product(old(a[j]), old(b[j]))
      invariant forall j :: i <= j < result.Length ==> result[j] == old(result[j])
      invariant forall j :: i <= j < a.Length ==> a[j] == old(a[j])
      invariant forall j :: i <= j < b.Length ==> b[j] == old(b[j])
    {
      AlignedBatchFits(i, n);
      var va := LoadAligned(a, i);
      var vb := LoadAligned(b, i);
      var vresult := Mul(va, vb);
      ProductLanes(va, vb);
      assert forall j :: i <= j < i + W ==> va[j - i] == old(a[j]) && vb[j - i] == old(b[j]);
      StoreAligned(result, i, vresult);
      forall j | i <= j < i + W
        ensures result[j] == Product(old(a[j]), old(b[j]))
      {
        assert result[j] == vresult[j - i];
      }
      AlignedStep(i, W);
      i := i + W;
    }
    RoundUpIsLeast(n, i);
  }

  /** `compute_abs_diff_sum`: `result[i] = |(|a[i] + b[i]|) - |a[i]| - |b[i]||`
      below `RoundUp(n)`; by `AbsDiffSumIsTriangleGap` that is how much of `|a[i]|`
      and `|b[i]|` cancels in the sum. */
  method ComputeAbsDiffSum(a: array<real>, b: array<real>, result: array<real>, n: SizeT)
    requires RoundUp(n) <= a.Length && RoundUp(n) <= b.Length && RoundUp(n) <= result.Length
    modifies result
    ensures forall i :: 0 <= i < RoundUp(n) ==> result[i] == AbsDiffSum(old(a[i]), old(b[i]))
    ensures forall i :: RoundUp(n) <= i < result.Length ==> result[i] == old(result[i])
    ensures a != result ==> a[..] == old(a[..])
    ensures b != result ==> b[..] == old(b[..])
  {
    var i: nat := 0;
    while i < n
      invariant Aligned(i) && i <= RoundUp(n)
      invariant forall j {:trigger result[j]} :: 0 <= j < i ==> result[j] == AbsDiffSum(old(a[j]), old(b[j]))
      invariant forall j :: i <= j < result.Length ==> result[j] == old(result[j])
      invariant forall j :: i <= j < a.Length ==> a[j] == old(a[j])
      invariant forall j :: i <= j < b.Length ==> b[j] == old(b[j])
    {
      AlignedBatchFits(i, n);
      var va := LoadAligned(a, i);
      var vb := LoadAligned(b, i);
      var vsum := Add(va, vb);
      var vabsSum := Abs(vsum);
      var vabsA := Abs(va);
      var vabsB := Abs(vb);
      var vdiff := Sub(Sub(vabsSum, vabsA), vabsB);
      var vabsDiff := Abs(vdiff);
      AbsDiffSumLanes(va, vb);
      assert forall j :: i <= j < i + W ==> va[j - i] == old(a[j]) && vb[j - i] == old(b[j]);
      StoreAligned(result, i, vabsDiff);
      forall j | i <= j < i + W
        ensures result[j] == AbsDiffSum(old(a[j]), old(b[j]))
      {
        assert result[j] == vabsDiff[j - i];
      }
      AlignedStep(i, W);
      i := i + W;
    }
    RoundUpIsLeast(n, i);
  }

  /** `square_vector`: `result[i] = input[i] * input[i]` below `RoundUp(n)`. */
  method SquareVector(input: array<real>, result: array<real>, n: SizeT)
    requires RoundUp(n) <= input.Length && RoundUp(n) <= result.Length
    modifies result
    ensures forall i :: 0 <= i < RoundUp(n) ==> result[i] == Square(old(input[i]))
    ensures forall i :: RoundUp(n) <= i < result.Length ==> result[i] == old(result[i])
    ensures input != result ==> input[..] == old(input[..])
  {
    var i: nat := 0;
    while i < n
      invariant Aligned(i) && i <= RoundUp(n)
      invariant forall j {:trigger result[j]} :: 0 <= j < i ==> result[j] == Square(old(input[j]))
      invariant forall j :: i <= j < result.Length ==> result[j] == old(result[j])
      invariant forall j :: i <= j < input.Length ==> input[j] == old(input[j])
    {
      AlignedBatchFits(i, n);
      var vinput := LoadAligned(input, i);
      var vresult := Mul(vinput, vinput);
      SquareLanes(vinput);
      assert forall j :: i <= j < i + W ==> vinput[j - i] == old(input[j]);
      StoreAligned(result, i, vresult);
      forall j | i <= j < i + W
        ensures result[j] == Square(old(input[j]))
      {
        assert result[j] == vresult[j - i];
      }
      AlignedStep(i, W);
      i := i + W;
    }
    RoundUpIsLeast(n, i);
  }

  /** `compute_rms_full`, up to the final square root: the W lane accumulators,
      added horizontally, divided by `n`. The loop reads every index below
      `RoundUp(n)`, so for `n` a multiple of W this is the mean square of exactly
      `input[..n]`. */
  method ComputeRmsFull(input: array<real>, n: SizeT) returns (meanSquare: real)
    requires 0 < n && RoundUp(n) <= input.Length
    ensures meanSquare == SumSquares(input[..RoundUp(n)]) / (n as real)
  {
    var vsum := AccumulateSquares(input, n);
    var totalSum := HorizontalSum(vsum);
    LaneSumsTotal(input[..RoundUp(n)]);
    meanSquare := totalSum / (n as real);
  }

  /** `compute_rms_full` with its last batch zero padded, as the windowed
      reduction pads a ragged tail: the mean square of exactly `input[..n]`,
      whatever the padding beyond `n` holds. */
  method ComputeRmsFullPadded(input: array<real>, n: SizeT) returns (meanSquare: real)
    requires 0 < n && n <= input.Length
    ensures meanSquare == SumSquares(input[..n]) / (n as real)
  {
    var vsum := WindowLaneSums(input, 0, n);
    var totalSum := HorizontalSum(vsum);
    assert input[0..0 + n] == input[..n];
    LaneSumsTotal(ZeroPad(input[..n]));
    ZeroPadAddsNothing(input[..n]);
    meanSquare := totalSum / (n as real);
  }

  /** The accumulation loop of `compute_rms_full`: `vsum += vinput * vinput`
      over the aligned batches below `RoundUp(n)`. */
  method AccumulateSquares(input: array<real>, n: SizeT) returns (vsum: Batch)
    requires RoundUp(n) <= input.Length
    ensures vsum == LaneSums(input[..RoundUp(n)])
  {
    ghost var s := input[..RoundUp(n)];
    vsum := Broadcast(0.0);
    var i: nat := 0;
    while i < n
      invariant Aligned(i) && i <= RoundUp(n)
      invariant vsum == LaneSums(s[..i])
    {
      AlignedBatchFits(i, n);
      var vinput := LoadAligned(input, i);
      var vsquare := Mul(vinput, vinput);
      PrefixLaneSumsSnoc(s, i, vsum, vinput);
      vsum := Add(vsum, vsquare);
      AlignedStep(i, W);
      i := i + W;
    }
    RoundUpIsLeast(n, i);
    assert s[..i] == s;
  }

  /** Stores the accumulators to a W-element buffer and adds its elements in
      order (`total_sum += sum[k]`). */
  method HorizontalSum(vsum: Batch) returns (totalSum: real)
    ensures totalSum == Sum(vsum)
  {
    var sum := new real[W];
    StoreAligned(sum, 0, vsum);
    totalSum := 0.0;
    for k := 0 to W
      invariant sum[..] == vsum
      invariant totalSum == Sum(vsum[..k])
    {
      assert vsum[..k + 1][..k] == vsum[..k];
      totalSum := totalSum + sum[k];
    }
    assert vsum[..W] == vsum;
  }

  /** The ragged tail of a window: a temporary of W zeros whose low `count`
      slots receive `input[from..from + count]`, loaded as one batch. */
  method LoadZeroPadded(input: array<real>, from: nat, count: nat) returns (vinput: Batch)
    requires count < W && from + count <= input.Length
    ensures vinput == input[from..from + count] + seq(W - count, _ => 0.0)
  {
    var temp := new real[W](_ => 0.0);
    for k := 0 to count
      invariant forall t :: 0 <= t < k ==> temp[t] == input[from + t]
      invariant forall t :: k <= t < W ==> temp[t] == 0.0
    {
      temp[k] := input[from + k];
    }
    vinput := LoadUnaligned(temp, 0);
  }

  /** The lane accumulators of one window: `limit` real elements starting at
      `start`, walked in strides of W; a full batch is loaded in place, the ragged
      tail through `LoadZeroPadded`. */
  method WindowLaneSums(input: array<real>, start: nat, limit: nat) returns (vsum: Batch)
    requires start + limit <= input.Length
    requires Aligned(start) || limit < W
    ensures vsum == LaneSums(ZeroPad(input[start..start + limit]))
  {
    ghost var ws := input[start..start + limit];
    ghost var padded := ZeroPad(ws);
    vsum := Broadcast(0.0);
    var j: nat := 0;
    while j < limit
      invariant Aligned(j) && j <= RoundUp(limit)
      invariant vsum == LaneSums(padded[..j])
      invariant input[start..start + limit] == ws
    {
      var vinput := LoadWindowBatch(input, start, limit, j);
      assert input[start..start + limit] == ws;
      var vsquare := Mul(vinput, vinput);
      PrefixLaneSumsSnoc(padded, j, vsum, vinput);
      vsum := Add(vsum, vsquare);
      AlignedStep(j, W);
      j := j + W;
    }
    RoundUpIsLeast(limit, j);
    assert padded[..j] == padded;
  }

  /** The batch at offset `j` of a window: loaded in place when W elements
      remain, otherwise zero padded. */
  method LoadWindowBatch(input: array<real>, start: nat, limit: nat, j: nat) returns (vinput: Batch)
    requires start + limit <= input.Length && Aligned(j) && j < limit
    requires Aligned(start) || limit < W
    ensures j + W <= RoundUp(limit)
    ensures vinput == ZeroPad(input[start..start + limit])[j..j + W]
  {
    ghost var ws := input[start..start + limit];
    ZeroPadBatch(ws, j);
    if j + W <= limit {
      vinput := LoadAligned(input, start + j);
      assert vinput == ws[j..j + W];
    } else {
      vinput := LoadZeroPadded(input, start + j, limit - j);
      assert input[start + j..start + limit] == ws[j..];
    }
  }

  /** `compute_rms_windowed`, up to the square root of each value: one mean
      square per window of `window` elements, the last window possibly shorter.
      Slot `m` of the fresh output holds the mean square of window `m` over its
      own `limit` real elements, and `writes` counts the stores to each slot:
      every slot is written exactly once. An aligned load happens only where a
      window still has at least W elements to read, so `window` must be a
      multiple of W unless it is shorter than W or every window after the first
      is shorter than W. */
  method ComputeRmsWindowed(input: array<real>, n: SizeT, window: SizeT)
    returns (rmsValues: array<real>, ghost writes: seq<nat>)
    requires 0 < window && n <= input.Length
    requires window % W == 0 || window < W || n < window + W
    ensures fresh(rmsValues) && rmsValues.Length == NumWindows(n, window)
    ensures forall m :: 0 <= m < rmsValues.Length ==>
              rmsValues[m] == WindowMeanSquare(input[..n], window, m)
    ensures |writes| == rmsValues.Length && forall m :: 0 <= m < |writes| ==> writes[m] == 1
  {
    var numWindows := NumWindows(n, window);
    rmsValues := new real[numWindows];
    writes := seq(numWindows, _ => 0);
    NumWindowsIsCeiling(n, window);
    ghost var s := input[..n];
    var i: nat := 0;
    ghost var m: nat := 0;
    while i < n
      invariant input[..n] == s
      invariant m <= numWindows && i == m * window
      invariant m < numWindows <==> i < n
      invariant window % W == 0 ==> Aligned(i)
      invariant i == 0 || window <= i
      invariant |writes| == numWindows
      invariant forall t :: 0 <= t < numWindows ==> writes[t] == if t < m then 1 else 0
      invariant forall t :: 0 <= t < m ==> rmsValues[t] == WindowMeanSquare(s, window, t)
    {
      WindowSlot(n, window, m);
      var limit := if i + window > n then n - i else window;
      var value := WindowMeanSquareAt(input, n, window, i, limit, m);
      var slot := i / window;
      rmsValues[slot] := value;
      writes := writes[slot := writes[slot] + 1];
      if window % W == 0 {
        AlignedStep(i, window);
      }
      i := i + window;
      m := m + 1;
      if m < numWindows {
        WindowSlot(n, window, m);
      }
      assert i == m * window;
    }
  }

  /** The body of the window loop for the window starting at `i`: its lane sums,
      added horizontally and divided by `limit`. */
  method WindowMeanSquareAt(input: array<real>, n: SizeT, window: SizeT, i: nat, limit: nat,
                            ghost m: nat) returns (value: real)
    requires 0 < window && n <= input.Length && m < NumWindows(n, window) && i == m * window
    requires limit == (if i + window > n then n - i else window)
    requires Aligned(i) || limit < W
    ensures value == WindowMeanSquare(input[..n], window, m)
  {
    WindowSlot(n, window, m);
    ghost var ws := input[i..i + limit];
    var vsum := WindowLaneSums(input, i, limit);
    var totalSum := HorizontalSum(vsum);
    LaneSumsTotal(ZeroPad(ws));
    ZeroPadAddsNothing(ws);
    assert totalSum == SumSquares(ws);
    WindowMeanSquareOf(input[..n], window, m, i, limit);
    assert input[..n][i..i + limit] == ws;
    value := totalSum / (limit as real);
  }

  /** `compute_abs_ratio`: `result[i] = |a[i] + b[i]| / (|a[i]| + |b[i]|)` below
      `RoundUp(n)`; by `AbsRatioBounds` a value in `[0, 1]` that is 1 exactly
      where `a[i]` and `b[i]` have the same sign. The exact division needs a
      nonzero denominator at every processed index. */
  method ComputeAbsRatio(a: array<real>, b: array<real>, result: array<real>, n: SizeT)
    requires RoundUp(n) <= a.Length && RoundUp(n) <= b.Length && RoundUp(n) <= result.Length
    requires forall i :: 0 <= i < RoundUp(n) ==> AbsReal(a[i]) + AbsReal(b[i]) != 0.0
    modifies result
    ensures forall i :: 0 <= i < RoundUp(n) ==> result[i] == AbsRatio(old(a[i]), old(b[i]))
    ensures forall i :: RoundUp(n) <= i < result.Length ==> result[i] == old(result[i])
    ensures a != result ==> a[..] == old(a[..])
    ensures b != result ==> b[..] == old(b[..])
  {
    var i: nat := 0;
    while i < n
      invariant Aligned(i) && i <= RoundUp(n)
      invariant forall j {:trigger result[j]} :: 0 <= j < i ==> result[j] == AbsRatio(old(a[j]), old(b[j]))
      invariant forall j :: i <= j < result.Length ==> result[j] == old(result[j])
      invariant forall j :: i <= j < a.Length ==> a[j] == old(a[j])
      invariant forall j :: i <= j < b.Length ==> b[j] == old(b[j])
    {
      AlignedBatchFits(i, n);
      var va := LoadAligned(a, i);
      var vb := LoadAligned(b, i);
      assert forall j :: i <= j < i + W ==> va[j - i] == old(a[j]) && vb[j - i] == old(b[j]);
      AbsRatioLanes(va, vb);
      var vabsA := Abs(va);
      var vabsB := Abs(vb);
      var vabsSum := Add(vabsA, vabsB);
      var vsum := Add(va, vb);
      var vabsSumAb := Abs(vsum);
      var vresult := Div(vabsSumAb, vabsSum);
      StoreAligned(result, i, vresult);
      forall j | i <= j < i + W
        ensures result[j] == AbsRatio(old(a[j]), old(b[j]))
      {
        assert result[j] == vresult[j - i];
      }
      AlignedStep(i, W);
      i := i + W;
    }
    RoundUpIsLeast(n, i);
  }

  /** `squared_difference`: `result[i] = (a[i] - b[i]) * (a[i] - b[i])` below
      `RoundUp(n)`; `SquaredDifferenceFacts` gives its meaning. */
  method SquaredDifference(a: array<real>, b: array<real>, result: array<real>, n: SizeT)
    requires RoundUp(n) <= a.Length && RoundUp(n) <= b.Length && RoundUp(n) <= result.Length
    modifies result
    ensures forall i :: 0 <= i < RoundUp(n) ==> result[i] == SquaredDiff(old(a[i]), old(b[i]))
    ensures forall i :: RoundUp(n) <= i < result.Length ==> result[i] == old(result[i])
    ensures a != result ==> a[..] == old(a[..])
    ensures b != result ==> b[..] == old(b[..])
  {
    var i: nat := 0;
    while i < n
      invariant Aligned(i) && i <= RoundUp(n)
      invariant forall j {:trigger result[j]} :: 0 <= j < i ==> result[j] == SquaredDiff(old(a[j]), old(b[j]))
      invariant forall j :: i <= j < result.Length ==> result[j] == old(result[j])
      invariant forall j :: i <= j < a.Length ==> a[j] == old(a[j])
      invariant forall j :: i <= j < b.Length ==> b[j] == old(b[j])
    {
      AlignedBatchFits(i, n);
      var va := LoadAligned(a, i);
      var vb := LoadAligned(b, i);
      var vdiff := Sub(va, vb);
      var vsquaredDiff := Mul(vdiff, vdiff);
      SquaredDifferenceLanes(va, vb);
      assert forall j :: i <= j < i + W ==> va[j - i] == old(a[j]) && vb[j - i] == old(b[j]);
      StoreAligned(result, i, vsquaredDiff);
      forall j | i <= j < i + W
        ensures result[j] == SquaredDiff(old(a[j]), old(b[j]))
      {
        assert result[j] == vsquaredDiff[j - i];
      }
      AlignedStep(i, W);
      i := i + W;
    }
    RoundUpIsLeast(n, i);
  }

  /** `compute_a_plus_bx`: `result[i] = a + b * x[i]` below `RoundUp(n)`, with `a`
      and `b` broadcast once before the loop; `AffineInverse` undoes it. */
  method ComputeAPlusBx(a: real, b: real, x: array<real>, result: array<real>, n: SizeT)
    requires RoundUp(n) <= x.Length && RoundUp(n) <= result.Length
    modifies result
    ensures forall i :: 0 <= i < RoundUp(n) ==> result[i] == Affine(a, b, old(x[i]))
    ensures forall i :: RoundUp(n) <= i < result.Length ==> result[i] == old(result[i])
    ensures x != result ==> x[..] == old(x[..])
  {
    var va := Broadcast(a);
    var vb := Broadcast(b);
    var i: nat := 0;
    while i < n
      invariant Aligned(i) && i <= RoundUp(n)
      invariant forall j {:trigger result[j]} :: 0 <= j < i ==> result[j] == Affine(a, b, old(x[j]))
      invariant forall j :: i <= j < result.Length ==> result[j] == old(result[j])
      invariant forall j :: i <= j < x.Length ==> x[j] == old(x[j])
    {
      AlignedBatchFits(i, n);
      var vx := LoadAligned(x, i);
      var vbx := Mul(vb, vx);
      var vresult := Add(va, vbx);
      AffineLanes(a, b, vx);
      assert forall j :: i <= j < i + W ==> vx[j - i] == old(x[j]);
      StoreAligned(result, i, vresult);
      forall j | i <= j < i + W
        ensures result[j] == Affine(a, b, old(x[j]))
      {
        assert result[j] == vresult[j - i];
      }
      AlignedStep(i, W);
      i := i + W;
    }
    RoundUpIsLeast(n, i);
  }
}
