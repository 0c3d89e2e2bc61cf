/** The lane abstraction the kernels are written against: a batch of W doubles
    loaded from a buffer, combined lane by lane, and stored back. Numbers are exact
    reals, so every lane operation is the exact scalar operation in each lane. */
module Lanes {

  /** Lane width: the number of doubles in one 256-bit batch (`simd_size`). */
  const W: nat := 4

  /** One batch: W values, lane 0 first (the lowest address). */
  type Batch = s: seq<real> | |s| == W witness [0.0, 0.0, 0.0, 0.0]

  /** The first multiple of W that is at least `n`: where a loop
      `for (i = 0; i < n; i += W)` stops. */
  function RoundUp(n: nat): (r: nat)
    ensures r % W == 0
    ensures n <= r < n + W
  {
    (n + W - 1) / W * W
  }

  /** No multiple of W that is at least `n` lies below `RoundUp(n)`. */
  lemma RoundUpIsLeast(n: nat, m: nat)
    requires m % W == 0 && n <= m
    ensures RoundUp(n) <= m
  {
  }

  /** An aligned index below `n` starts a batch that ends by `RoundUp(n)`. */
  lemma AlignedBatchFits(i: nat, n: nat)
    requires i % W == 0 && i < n
    ensures i + W <= RoundUp(n)
  {
    var q := i / W;
    assert i == q * W;
    var r := RoundUp(n);
    assert r == (r / W) * W;
  }

  /** Stepping an aligned index by a multiple of W keeps it aligned. */
  lemma AlignedStep(i: nat, d: nat)
    requires i % W == 0 && d % W == 0
    ensures (i + d) % W == 0
  {
    assert i + d == (i / W + d / W) * W;
  }

  /** An element index is batch-aligned when, in a buffer whose base address is
      aligned, its address is a multiple of the batch size (W doubles). */
  predicate Aligned(i: nat)
  {
    i % W == 0
  }

  /** `load_unaligned`: the W elements starting at index `i`. */
  function LoadUnaligned(buf: array<real>, i: nat): (v: Batch)
    requires i + W <= buf.Length
    reads buf
    ensures forall k :: 0 <= k < W ==> v[k] == buf[i + k]
  {
    buf[i..i + W]
  }

  /** `load_aligned`: as `LoadUnaligned`, for an aligned index only. */
  function LoadAligned(buf: array<real>, i: nat): (v: Batch)
    requires Aligned(i) && i + W <= buf.Length
    reads buf
    ensures forall k :: 0 <= k < W ==> v[k] == buf[i + k]
  {
    LoadUnaligned(buf, i)
  }

  /** `store_unaligned`: writes the W lanes of `v` to `buf[i..i+W]` and nothing else. */
  method StoreUnaligned(buf: array<real>, i: nat, v: Batch)
    requires i + W <= buf.Length
    modifies buf
    ensures buf[i..i + W] == v
    ensures forall j :: i <= j < i + W ==> buf[j] == v[j - i]
    ensures forall j :: 0 <= j < buf.Length && !(i <= j < i + W) ==> buf[j] == old(buf[j])
  {
    forall k | 0 <= k < W {
      buf[i + k] := v[k];
    }
    assert forall k :: 0 <= k < W ==> buf[i..i + W][k] == v[k];
  }

  /** `store_aligned`: as `StoreUnaligned`, for an aligned index only. */
  method StoreAligned(buf: array<real>, i: nat, v: Batch)
    requires Aligned(i) && i + W <= buf.Length
    modifies buf
    ensures buf[i..i + W] == v
    ensures forall j :: i <= j < i + W ==> buf[j] == v[j - i]
    ensures forall j :: 0 <= j < buf.Length && !(i <= j < i + W) ==> buf[j] == old(buf[j])
  {
    StoreUnaligned(buf, i, v);
  }

  /** `broadcast(x)`: x in every lane. */
  function Broadcast(x: real): (v: Batch)
    ensures forall k :: 0 <= k < W ==> v[k] == x
  {
    seq(W, _ => x)
  }

  /** Lane-wise `+`, `-` and `*`: lane `k` of the result combines lane `k` of each operand. */
  function Add(u: Batch, v: Batch): (r: Batch)
    ensures forall k :: 0 <= k < W ==> r[k] == u[k] + v[k]
  {
    seq(W, k requires 0 <= k < W => u[k] + v[k])
  }

  function Sub(u: Batch, v: Batch): (r: Batch)
    ensures forall k :: 0 <= k < W ==> r[k] == u[k] - v[k]
  {
    seq(W, k requires 0 <= k < W => u[k] - v[k])
  }

  function Mul(u: Batch, v: Batch): (r: Batch)
    ensures forall k :: 0 <= k < W ==> r[k] == u[k] * v[k]
  {
    seq(W, k requires 0 <= k < W => u[k] * v[k])
  }

  /** Lane-wise division; exact division needs a nonzero divisor in every lane. */
  function Div(u: Batch, v: Batch): (r: Batch)
    requires forall k :: 0 <= k < W ==> v[k] != 0.0
    ensures forall k :: 0 <= k < W ==> r[k] == u[k] / v[k]
  {
    seq(W, k requires 0 <= k < W => u[k] / v[k])
  }

  /** Absolute value of one number. The source clears the sign bit; on exact reals
      this is the usual absolute value. */
  function AbsReal(x: real): (r: real)
    ensures r >= 0.0 && (r == x || r == -x)
  {
    if x < 0.0 then -x else x
  }

  function Abs(u: Batch): (r: Batch)
    ensures forall k :: 0 <= k < W ==> r[k] == AbsReal(u[k])
  {
    seq(W, k requires 0 <= k < W => AbsReal(u[k]))
  }
}
