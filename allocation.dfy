/** `allocate_aligned_memory`: round the element count up to a multiple of four,
    so that the stride-four kernels stay inside the buffer, and ask the aligned
    allocator for that many doubles. */
module Allocation {
  import opened Bits
  import opened Lanes

  datatype Option<T> = None | Some(value: T)

  /** Bytes in one double (`sizeof(double)`). */
  const DOUBLE_BYTES: nat := 8

  /** `padded_n = (n + 3) & ~3` as written, in `size_t`. */
  function PaddedCountAsWritten(n: SizeT): (r: SizeT)
    ensures r % W == 0 && r <= WrapAdd(n, 3) < r + W
  {
    var m := WrapAdd(n, 3);
    ClearLowTwoBits(m);
    RoundDownFour(m);
    BitAnd(m, BitNot(3, SIZE_BITS), SIZE_BITS)
  }

  /** The byte count handed to the allocator as written: `padded_n * sizeof(double)` in `size_t`. */
  function RequestedBytesAsWritten(n: SizeT): (r: SizeT)
    ensures r % DOUBLE_BYTES == 0
    ensures PaddedCountAsWritten(n) * DOUBLE_BYTES < SIZE_MODULUS ==>
              r == PaddedCountAsWritten(n) * DOUBLE_BYTES
  {
    WrapMulByEight(PaddedCountAsWritten(n));
    WrapMul(PaddedCountAsWritten(n), DOUBLE_BYTES)
  }

  /** Whenever `n + 3` fits in `size_t`, `(n + 3) & ~3` is the first multiple of
      four at or above `n`: a multiple of four, at least `n`, below `n + 4`. */
  lemma PaddedCountIsRoundUp(n: SizeT)
    requires n + 3 < SIZE_MODULUS
    ensures PaddedCountAsWritten(n) == RoundUp(n)
    ensures PaddedCountAsWritten(n) % 4 == 0 && n <= PaddedCountAsWritten(n) < n + 4
  {
    ClearLowTwoBits(n + 3);
  }

  /** Above `2^64 - 4` the sum `n + 3` wraps and the padded count collapses to 0
      (for `n = 2^64 - 1`, say). */
  lemma PaddedCountWraps(n: SizeT)
    requires n + 3 >= SIZE_MODULUS
    ensures PaddedCountAsWritten(n) == 0
  {
    ClearLowTwoBitsBelowFour(WrapAdd(n, 3));
  }

  /** Once the padded count times `sizeof(double)` reaches 2^64, the byte count
      wraps and the allocator is asked for fewer bytes than the padded count
      needs: it gets the padded byte count modulo 2^64. For `n = 2^61` it is
      asked for 0 bytes, and for `n = 2^61 + 1` for 32 bytes (four doubles). */
  lemma RequestedBytesWrap(n: SizeT)
    requires n + 3 < SIZE_MODULUS && SIZE_MODULUS <= RoundUp(n) * DOUBLE_BYTES
    ensures RequestedBytesAsWritten(n) == (RoundUp(n) * DOUBLE_BYTES) % SIZE_MODULUS
    ensures RequestedBytesAsWritten(n) < RoundUp(n) * DOUBLE_BYTES
    ensures n == 0x2000_0000_0000_0000 ==> RequestedBytesAsWritten(n) == 0
    ensures n == 0x2000_0000_0000_0001 ==> RequestedBytesAsWritten(n) == 32
  {
    RequestedBytesOfRoundUp(n);
    if n == 0x2000_0000_0000_0000 {
      RoundUpAtTwoTo61(n);
    } else if n == 0x2000_0000_0000_0001 {
      RoundUpAtTwoTo61Plus1(n);
    }
  }

  /** For `n = 2^61` the padded byte count is exactly 2^64, which wraps to 0. */
  lemma RoundUpAtTwoTo61(n: SizeT)
    requires n == 0x2000_0000_0000_0000
    ensures WrapMul(RoundUp(n), DOUBLE_BYTES) == 0
  {
    RoundUpIsLeast(n, n);
    assert RoundUp(n) * DOUBLE_BYTES == SIZE_MODULUS;
  }

  /** For `n = 2^61 + 1` the padded count is `2^61 + 4`, and its byte count wraps to 32. */
  lemma RoundUpAtTwoTo61Plus1(n: SizeT)
    requires n == 0x2000_0000_0000_0001
    ensures WrapMul(RoundUp(n), DOUBLE_BYTES) == 32
  {
    var r := RoundUp(n);
    RoundUpIsLeast(n, n + 3);
    assert r == 4 * (r / 4);
    assert r * DOUBLE_BYTES == SIZE_MODULUS + 32;
  }

  /** Without a wrap in `n + 3`, the request is `RoundUp(n)` doubles' worth of bytes in `size_t`. */
  lemma RequestedBytesOfRoundUp(n: SizeT)
    requires n + 3 < SIZE_MODULUS
    ensures RoundUp(n) < SIZE_MODULUS
    ensures RequestedBytesAsWritten(n) == WrapMul(RoundUp(n), DOUBLE_BYTES)
  {
    PaddedCountIsRoundUp(n);
  }

  /** The element count to allocate, or `None` when neither the padded count nor
      its size in bytes fits in `size_t`: the rounding the allocator means to do,
      with the overflow reported instead of wrapped. */
  function CheckedPaddedCount(n: SizeT): (r: Option<SizeT>)
    ensures r.Some? <==> RoundUp(n) * DOUBLE_BYTES < SIZE_MODULUS
    ensures r.Some? ==> r.value == RoundUp(n)
    ensures r.Some? ==> r.value % W == 0 && n <= r.value < n + W
  {
    if RoundUp(n) * DOUBLE_BYTES < SIZE_MODULUS then
      PaddedCountIsRoundUp(n);
      Some(PaddedCountAsWritten(n))
    else None
  }

  /** `allocate_aligned_memory(n)`: a fresh buffer of the padded length, or null
      when the request does not fit in `size_t`. The returned buffer's base is
      taken to be aligned; its contents are unspecified. */
  method AllocateAlignedMemory(n: SizeT) returns (buf: array?<real>)
    ensures CheckedPaddedCount(n).None? ==> buf == null
    ensures CheckedPaddedCount(n).Some? ==> buf != null && fresh(buf) && buf.Length == RoundUp(n)
  {
    var padded := CheckedPaddedCount(n);
    if padded.None? {
      return null;
    }
    buf := new real[padded.value];
  }
}
