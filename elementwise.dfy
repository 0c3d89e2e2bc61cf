/** What each elementwise kernel computes at one index, and the facts about those
    values that give them their meaning. */
module Elementwise {
  import opened Lanes

  /** `a * b`: the value `mul_vectors` stores at one index. */
  function Product(x: real, y: real): real
  {
    x * y
  }

  /** `x * x`: the value `square_vector` stores at one index. */
  function Square(x: real): real
  {
    x * x
  }

  /** `a + b * x`: the value `compute_a_plus_bx` stores at one index. */
  function Affine(a: real, b: real, x: real): real
  {
    a + b * x
  }

  /** `abs(abs(a + b) - abs(a) - abs(b))`. */
  function AbsDiffSum(x: real, y: real): real
  {
    AbsReal(AbsReal(x + y) - AbsReal(x) - AbsReal(y))
  }

  /** `abs(a + b) / (abs(a) + abs(b))`, for a nonzero denominator. */
  function AbsRatio(x: real, y: real): real
    requires AbsReal(x) + AbsReal(y) != 0.0
  {
    AbsReal(x + y) / (AbsReal(x) + AbsReal(y))
  }

  /** `(a - b) * (a - b)`. */
  function SquaredDiff(x: real, y: real): real
  {
    (x - y) * (x - y)
  }

  predicate SameSign(x: real, y: real)
  {
    (x >= 0.0 && y >= 0.0) || (x <= 0.0 && y <= 0.0)
  }

  lemma MulPositive(u: real, v: real)
    requires u > 0.0 && v > 0.0
    ensures u * v > 0.0
  {
  }

  /** A product is zero only when a factor is. */
  lemma MulZero(u: real, v: real)
    requires u * v == 0.0 && v != 0.0
    ensures u == 0.0
  {
    if u > 0.0 && v > 0.0 {
      MulPositive(u, v);
    } else if u > 0.0 {
      MulPositive(u, -v);
    } else if u < 0.0 && v > 0.0 {
      MulPositive(-u, v);
    } else if u < 0.0 {
      MulPositive(-u, -v);
    }
  }

  /** The absolute difference-sum is the gap in the triangle inequality
      `|a + b| <= |a| + |b|`: zero exactly when `a` and `b` have the same sign,
      and otherwise twice the smaller magnitude (what cancels in `a + b`). */
  lemma AbsDiffSumIsTriangleGap(x: real, y: real)
    ensures AbsDiffSum(x, y) == AbsReal(x) + AbsReal(y) - AbsReal(x + y)
    ensures AbsDiffSum(x, y) == if SameSign(x, y) then 0.0
              else if AbsReal(x) <= AbsReal(y) then 2.0 * AbsReal(x) else 2.0 * AbsReal(y)
  {
  }

  /** The absolute ratio lies in `[0, 1]`, is 1 exactly when `a` and `b` have the
      same sign, and is one minus the cancelled share measured by `AbsDiffSum`. */
  lemma AbsRatioBounds(x: real, y: real)
    requires AbsReal(x) + AbsReal(y) != 0.0
    ensures 0.0 <= AbsRatio(x, y) <= 1.0
    ensures AbsRatio(x, y) == 1.0 <==> SameSign(x, y)
    ensures AbsRatio(x, y) == 1.0 - AbsDiffSum(x, y) / (AbsReal(x) + AbsReal(y))
  {
    var d := AbsReal(x) + AbsReal(y);
    var s := AbsReal(x + y);
    var q := AbsRatio(x, y);
    AbsDiffSumIsTriangleGap(x, y);
    assert 0.0 <= s <= d;
    assert q * d == s;
    if q < 0.0 {
      MulPositive(-q, d);
    }
    if q > 1.0 {
      MulPositive(q - 1.0, d);
    }
    if q == 1.0 {
      assert s == d;
    }
    var t := AbsDiffSum(x, y) / d;
    assert t * d == d - s;
    assert (t + q - 1.0) * d == t * d + q * d - d;
    MulZero(t + q - 1.0, d);
  }

  /** A squared difference is never negative, is zero exactly when the two
      inputs are equal, and does not depend on their order. */
  lemma SquaredDifferenceFacts(x: real, y: real)
    ensures SquaredDiff(x, y) >= 0.0
    ensures SquaredDiff(x, y) == 0.0 <==> x == y
    ensures SquaredDiff(x, y) == SquaredDiff(y, x)
  {
    if SquaredDiff(x, y) == 0.0 && x != y {
      MulZero(x - y, x - y);
    }
  }

  /** A square has exactly one non-negative square root, `|x|`: taking the root of
      the absolute value of `square(x)` gives back `|x|`. */
  lemma SquareHasRootAbs(x: real, r: real)
    requires r >= 0.0 && Square(r) == Square(x)
    ensures r == AbsReal(x)
  {
    var a := AbsReal(x);
    assert a * a == x * x;
    assert (r - a) * (r + a) == r * r - a * a == 0.0;
    if r + a != 0.0 {
      MulZero(r - a, r + a);
    }
  }

  /** For `b != 0` the affine map `x -> a + b * x` is undone by `r -> (r - a) / b`. */
  lemma AffineInverse(a: real, b: real, x: real)
    requires b != 0.0
    ensures (Affine(a, b, x) - a) / b == x
  {
  }

  /** Lane `k` of the batch expression of `compute_abs_diff_sum` is `AbsDiffSum`
      of lane `k` of its two inputs. */
  lemma AbsDiffSumLanes(va: Batch, vb: Batch)
    ensures forall k :: 0 <= k < W ==>
              Abs(Sub(Sub(Abs(Add(va, vb)), Abs(va)), Abs(vb)))[k] == AbsDiffSum(va[k], vb[k])
  {
  }

  /** Lane `k` of the batch expression of `squared_difference` is `SquaredDiff`
      of lane `k` of its two inputs. */
  lemma SquaredDifferenceLanes(va: Batch, vb: Batch)
    ensures forall k :: 0 <= k < W ==> Mul(Sub(va, vb), Sub(va, vb))[k] == SquaredDiff(va[k], vb[k])
  {
  }

  /** Lane `k` of the batch expression of `compute_abs_ratio` is `AbsRatio` of
      lane `k` of its two inputs, whenever no lane's denominator is zero. */
  lemma AbsRatioLanes(va: Batch, vb: Batch)
    requires forall k :: 0 <= k < W ==> AbsReal(va[k]) + AbsReal(vb[k]) != 0.0
    ensures forall k :: 0 <= k < W ==> Add(Abs(va), Abs(vb))[k] != 0.0
    ensures forall k :: 0 <= k < W ==>
              Div(Abs(Add(va, vb)), Add(Abs(va), Abs(vb)))[k] == AbsRatio(va[k], vb[k])
  {
  }

  /** Lane `k` of the batch expression of `compute_a_plus_bx` is `Affine` of lane
      `k` of `x`. */
  lemma AffineLanes(a: real, b: real, vx: Batch)
    ensures forall k :: 0 <= k < W ==> Add(Broadcast(a), Mul(Broadcast(b), vx))[k] == Affine(a, b, vx[k])
  {
  }

  /** Lane `k` of a lane-wise product is `Product` of lane `k` of its factors. */
  lemma ProductLanes(va: Batch, vb: Batch)
    ensures forall k :: 0 <= k < W ==> Mul(va, vb)[k] == Product(va[k], vb[k])
  {
  }

  /** Lane `k` of a batch multiplied by itself is `Square` of lane `k`. */
  lemma SquareLanes(v: Batch)
    ensures forall k :: 0 <= k < W ==> Mul(v, v)[k] == Square(v[k])
  {
  }
}
