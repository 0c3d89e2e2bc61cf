/** Sums of squares: the sequential reference, the W lane-interleaved partial
    sums the reductions keep in `vsum`, and zero padding of a ragged tail. */
module Reductions {
  import opened Lanes

  /** Left-to-right sum, as the loop `total_sum += sum[k]` forms it. */
  function Sum(s: seq<real>): real
  {
    if |s| == 0 then 0.0 else Sum(s[..|s| - 1]) + s[|s| - 1]
  }

  /** Sum of the squares of `s`, in index order. */
  function SumSquares(s: seq<real>): real
  {
    if |s| == 0 then 0.0 else SumSquares(s[..|s| - 1]) + s[|s| - 1] * s[|s| - 1]
  }

  /** The W lane accumulators after `vsum += v * v` over the consecutive batches
      `v` of `s`, starting from `vsum = broadcast(0.0)`. */
  function LaneSums(s: seq<real>): Batch
    requires |s| % W == 0
  {
    if |s| == 0 then Broadcast(0.0)
    else
      var v: Batch := s[|s| - W..];
      Add(LaneSums(s[..|s| - W]), Mul(v, v))
  }

  /** The elements of `s` that land in lane `k`: indices k, k + W, k + 2W, ... */
  function Lane(s: seq<real>, k: nat): (r: seq<real>)
    requires |s| % W == 0 && k < W
    ensures |r| == |s| / W
  {
    seq(|s| / W, t requires 0 <= t < |s| / W => s[t * W + k])
  }

  /** `s` followed by zeros up to the next multiple of W: the lanes the windowed
      reduction loads for a window of `s`, its ragged tail copied into a zeroed
      temporary. */
  function ZeroPad(s: seq<real>): (r: seq<real>)
    ensures |r| == RoundUp(|s|)
  {
    s + seq(RoundUp(|s|) - |s|, _ => 0.0)
  }

  /** The batch at offset `j` of a zero-padded sequence: a full batch of `s`, or,
      for the ragged tail, the remaining `|s| - j` elements of `s` in the low lanes
      and zeros in the rest. */
  lemma ZeroPadBatch(s: seq<real>, j: nat)
    requires j % W == 0 && j < |s|
    ensures j + W <= |ZeroPad(s)|
    ensures j + W <= |s| ==> ZeroPad(s)[j..j + W] == s[j..j + W]
    ensures |s| < j + W ==> ZeroPad(s)[j..j + W] == s[j..] + seq(j + W - |s|, _ => 0.0)
  {
    if |s| < j + W {
      RoundUpIsLeast(|s|, j + W);
    }
  }

  /** One more batch adds its squares lane by lane. */
  lemma LaneSumsSnoc(p: seq<real>, v: Batch)
    requires |p| % W == 0
    ensures LaneSums(p + v) == Add(LaneSums(p), Mul(v, v))
  {
    var s := p + v;
    assert s[..|s| - W] == p;
    assert s[|s| - W..] == v;
  }

  /** The accumulators over a prefix grow by one batch at a time. */
  lemma PrefixLaneSumsSnoc(s: seq<real>, i: nat, acc: Batch, v: Batch)
    requires i % W == 0 && i + W <= |s|
    requires acc == LaneSums(s[..i]) && v == s[i..i + W]
    ensures Add(acc, Mul(v, v)) == LaneSums(s[..i + W])
  {
    assert s[..i + W] == s[..i] + v;
    LaneSumsSnoc(s[..i], v);
  }

  /** Sum of a batch, written out lane by lane. */
  lemma SumOfBatch(u: Batch)
    ensures Sum(u) == u[0] + u[1] + u[2] + u[3]
  {
    assert u[..3][..2] == u[..2];
    assert u[..2][..1] == u[..1];
    assert u[..1][..0] == [];
    assert Sum(u[..1]) == u[0];
    assert Sum(u[..2]) == u[0] + u[1];
    assert Sum(u[..3]) == u[0] + u[1] + u[2];
  }

  lemma SumSquaresOfBatch(u: Batch)
    ensures SumSquares(u) == u[0] * u[0] + u[1] * u[1] + u[2] * u[2] + u[3] * u[3]
  {
    assert u[..3][..2] == u[..2];
    assert u[..2][..1] == u[..1];
    assert u[..1][..0] == [];
    assert SumSquares(u[..1]) == u[0] * u[0];
    assert SumSquares(u[..2]) == u[0] * u[0] + u[1] * u[1];
    assert SumSquares(u[..3]) == u[0] * u[0] + u[1] * u[1] + u[2] * u[2];
  }

  lemma {:induction false} SumSquaresAppend(p: seq<real>, q: seq<real>)
    ensures SumSquares(p + q) == SumSquares(p) + SumSquares(q)
    decreases |q|
  {
    if |q| == 0 {
      assert p + q == p;
    } else {
      var q' := q[..|q| - 1];
      assert (p + q)[..|p + q| - 1] == p + q';
      SumSquaresAppend(p, q');
    }
  }

  lemma {:induction false} SumSquaresOfZeros(k: nat)
    ensures SumSquares(seq(k, _ => 0.0)) == 0.0
  {
    if k > 0 {
      assert seq(k, _ => 0.0)[..k - 1] == seq(k - 1, _ => 0.0);
      SumSquaresOfZeros(k - 1);
    }
  }

  /** Zero padding contributes nothing to a sum of squares. */
  lemma ZeroPadAddsNothing(s: seq<real>)
    ensures SumSquares(ZeroPad(s)) == SumSquares(s)
  {
    SumSquaresAppend(s, seq(RoundUp(|s|) - |s|, _ => 0.0));
    SumSquaresOfZeros(RoundUp(|s|) - |s|);
  }

  lemma SumOfAdd(u: Batch, v: Batch)
    ensures Sum(Add(u, v)) == Sum(u) + Sum(v)
  {
    SumOfBatch(Add(u, v));
    SumOfBatch(u);
    SumOfBatch(v);
  }

  lemma SumOfSquareBatch(v: Batch)
    ensures Sum(Mul(v, v)) == SumSquares(v)
  {
    SumOfBatch(Mul(v, v));
    SumSquaresOfBatch(v);
  }

  /** A full-array reduction over `RoundUp(n)` elements adds the squares of the
      padding after the first `n`; they vanish when `n` is a multiple of W. */
  lemma PaddingInFullSum(s: seq<real>, n: nat)
    requires RoundUp(n) <= |s|
    ensures SumSquares(s[..RoundUp(n)]) == SumSquares(s[..n]) + SumSquares(s[n..RoundUp(n)])
    ensures n % W == 0 ==> SumSquares(s[..RoundUp(n)]) == SumSquares(s[..n])
  {
    assert s[..RoundUp(n)] == s[..n] + s[n..RoundUp(n)];
    SumSquaresAppend(s[..n], s[n..RoundUp(n)]);
    if n % W == 0 {
      assert s[..RoundUp(n)] == s[..n];
    }
  }

  /** Five elements of zero followed by padding `[1, 0, 0]`: the full-array
      reduction over the padded length gives mean square 1/5 instead of 0. */
  lemma PaddingChangesFullMeanSquare()
    ensures SumSquares([0.0, 0.0, 0.0, 0.0, 0.0, 1.0, 0.0, 0.0][..RoundUp(5)]) / 5.0 == 0.2
    ensures SumSquares([0.0, 0.0, 0.0, 0.0, 0.0, 1.0, 0.0, 0.0][..5]) / 5.0 == 0.0
  {
    var s := [0.0, 0.0, 0.0, 0.0, 0.0, 1.0, 0.0, 0.0];
    assert s[..RoundUp(5)] == s;
    assert s[..5] == seq(5, _ => 0.0);
    SumSquaresOfZeros(5);
    PaddingInFullSum(s, 5);
    assert s[5..8] == [1.0] + seq(2, _ => 0.0);
    SumSquaresAppend([1.0], seq(2, _ => 0.0));
    SumSquaresOfZeros(2);
    assert [1.0][..0] == [];
  }

  /** Adding the W lane accumulators horizontally gives the plain sequential sum
      of squares: lane-interleaved accumulation loses nothing in exact arithmetic. */
  lemma {:induction false} LaneSumsTotal(s: seq<real>)
    requires |s| % W == 0
    ensures Sum(LaneSums(s)) == SumSquares(s)
    decreases |s|
  {
    if |s| > 0 {
      var p := s[..|s| - W];
      var v: Batch := s[|s| - W..];
      assert s == p + v;
      calc {
        Sum(LaneSums(s));
        Sum(Add(LaneSums(p), Mul(v, v)));
        { SumOfAdd(LaneSums(p), Mul(v, v)); }
        Sum(LaneSums(p)) + Sum(Mul(v, v));
        { LaneSumsTotal(p); SumOfSquareBatch(v); }
        SumSquares(p) + SumSquares(v);
        { SumSquaresAppend(p, v); }
        SumSquares(s);
      }
    } else {
      SumOfBatch(LaneSums(s));
    }
  }

  /** Lane `k` of the accumulators is the sum of squares of the elements at
      indices congruent to `k` modulo W, and of no others. */
  lemma {:induction false} LaneSumsPerLane(s: seq<real>, k: nat)
    requires |s| % W == 0 && k < W
    ensures LaneSums(s)[k] == SumSquares(Lane(s, k))
    decreases |s|
  {
    if |s| > 0 {
      var p := s[..|s| - W];
      LaneSumsPerLane(p, k);
      var l := Lane(s, k);
      assert l[..|l| - 1] == Lane(p, k);
      assert l[|l| - 1] == s[|s| - W + k];
    }
  }

  /** The sum of squares of `n` copies of `v` is `n * v * v`, so a constant array's
      mean square is `v * v` and its root mean square is `|v|`. */
  lemma {:induction false} SumSquaresOfConstant(n: nat, v: real)
    ensures SumSquares(seq(n, _ => v)) == (n as real) * v * v
  {
    if n > 0 {
      assert seq(n, _ => v)[..n - 1] == seq(n - 1, _ => v);
      SumSquaresOfConstant(n - 1, v);
    }
  }
}
