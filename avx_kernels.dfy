/** The raw-AVX kernels: the same stride-four loops as the portable kernels,
    written with the literal stride 4 and unaligned loads and stores, so the
    buffers carry no alignment requirement. Each touches the indices below
    `RoundUp(n)`, the padded length `AllocateAlignedMemory(n)` returns.
    `result` may be the same array as an input. */
module AvxKernels {
  import opened Bits
  import opened Lanes
  import opened Elementwise

  /** `add_vectors`: `result[i] = a[i] + b[i]` below `RoundUp(n)`; `a` and `b`
      are read only. */
  method AddVectors(a: array<real>, b: array<real>, result: array<real>, n: SizeT)
    requires RoundUp(n) <= a.Length && RoundUp(n) <= b.Length && RoundUp(n) <= result.Length
    modifies result
    ensures forall i :: 0 <= i < RoundUp(n) ==> result[i] == old(a[i]) + old(b[i])
    ensures forall i :: RoundUp(n) <= i < result.Length ==> result[i] == old(result[i])
    ensures a != result ==> a[..] == old(a[..])
    ensures b != result ==> b[..] == old(b[..])
  {
    var i: nat := 0;
    while i < n
      invariant i % 4 == 0 && i <= RoundUp(n)
      invariant forall j {:trigger result[j]} :: 0 <= j < i ==> result[j] == old(a[j]) + old(b[j])
      invariant forall j :: i <= j < result.Length ==> result[j] == old(result[j])
      invariant forall j :: i <= j < a.Length ==> a[j] == old(a[j])
      invariant forall j :: i <= j < b.Length ==> b[j] == old(b[j])
    {
      AlignedBatchFits(i, n);
      var va := LoadUnaligned(a, i);
      var vb := LoadUnaligned(b, i);
      var vresult := Add(va, vb);
      assert forall j :: i <= j < i + W ==> va[j - i] == old(a[j]) && vb[j - i] == old(b[j]);
      StoreUnaligned(result, i, vresult);
      forall j | i <= j < i + W
        ensures result[j] == old(a[j]) + old(b[j])
      {
        assert result[j] == vresult[j - i];
      }
      AlignedStep(i, 4);
      i := i + 4;
    }
    LoopsEndAtPaddedLength(n, i);
  }

  /** `square_vector`: `result[i] = input[i] * input[i]` below `RoundUp(n)`;
      `input` is read only. */
  method SquareVector(input: array<real>, result: array<real>, n: SizeT)
    requires RoundUp(n) <= input.Length && RoundUp(n) <= result.Length
    modifies result
    ensures forall i :: 0 <= i < RoundUp(n) ==> result[i] == Square(old(input[i]))
    ensures forall i :: RoundUp(n) <= i < result.Length ==> result[i] == old(result[i])
    ensures input != result ==> input[..] == old(input[..])
  {
    var i: nat := 0;
    while i < n
      invariant i % 4 == 0 && i <= RoundUp(n)
      invariant forall j {:trigger result[j]} :: 0 <= j < i ==> result[j] == Square(old(input[j]))
      invariant forall j :: i <= j < result.Length ==> result[j] == old(result[j])
      invariant forall j :: i <= j < input.Length ==> input[j] == old(input[j])
    {
      AlignedBatchFits(i, n);
      var vinput := LoadUnaligned(input, i);
      var vresult := Mul(vinput, vinput);
      SquareLanes(vinput);
      assert forall j :: i <= j < i + W ==> vinput[j - i] == old(input[j]);
      StoreUnaligned(result, i, vresult);
      forall j | i <= j < i + W
        ensures result[j] == Square(old(input[j]))
      {
        assert result[j] == vresult[j - i];
      }
      AlignedStep(i, 4);
      i := i + 4;
    }
    LoopsEndAtPaddedLength(n, i);
  }

  /** The two loops stop at the first multiple of 4 at or above `n`: the index
      after the last batch is `RoundUp(n)`, the highest index touched is
      `RoundUp(n) - 1`, and every buffer of the padded length covers them. */
  lemma LoopsEndAtPaddedLength(n: SizeT, i: nat)
    requires i % 4 == 0 && i <= RoundUp(n) && i >= n
    ensures i == RoundUp(n)
  {
    RoundUpIsLeast(n, i);
  }
}
