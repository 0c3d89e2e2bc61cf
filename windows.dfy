/** The index arithmetic of the windowed reduction: how many windows an input of
    `n` elements has, where each window starts, how many real elements it holds,
    and which slot of the output it fills. */
module Windows {
  import opened Bits
  import opened Reductions

  function Min(x: int, y: int): int
  {
    if x <= y then x else y
  }

  lemma DivModBasics(x: int, d: int)
    requires d > 0
    ensures x == (x / d) * d + x % d && 0 <= x % d < d
  {
  }

  lemma MulMonotone(a: int, b: int, d: int)
    requires a <= b && d >= 0
    ensures a * d <= b * d
  {
    assert b * d - a * d == (b - a) * d;
  }

  /** Euclidean division is determined by its quotient and remainder. */
  lemma DivModUnique(x: int, d: int, q: int, r: int)
    requires d > 0 && x == q * d + r && 0 <= r < d
    ensures x / d == q && x % d == r
  {
    var q0 := x / d;
    DivModBasics(x, d);
    if q0 < q {
      MulMonotone(q0 + 1, q, d);
    } else if q < q0 {
      MulMonotone(q + 1, q0, d);
    }
  }

  lemma DivBounds(x: int, d: int)
    requires x >= 0 && d > 0
    ensures 0 <= x / d <= x
  {
    var q := x / d;
    DivModBasics(x, d);
    if q < 0 {
      MulMonotone(q, -1, d);
    } else {
      MulMonotone(1, d, q);
    }
  }

  lemma MulDivCancel(m: nat, d: nat)
    requires d > 0
    ensures (m * d) / d == m && (m * d) % d == 0
  {
    DivModUnique(m * d, d, m, 0);
  }

  /** `num_windows` as written, `(n + window - 1) / window` in `size_t`: the
      numerator wraps modulo 2^64 when `n + window - 1` does not fit. */
  function NumWindowsAsWritten(n: SizeT, window: SizeT): (r: SizeT)
    requires window > 0
    ensures n + window - 1 < SIZE_MODULUS ==> r * window <= n + window - 1 < (r + 1) * window
    ensures n + window - 1 >= SIZE_MODULUS ==> r * window <= n + window - 1 - SIZE_MODULUS < (r + 1) * window
  {
    WrapAdd(n, window - 1) / window
  }

  /** The number of windows, computed without an intermediate that can exceed `n`. */
  function NumWindows(n: SizeT, window: SizeT): (r: SizeT)
    requires window > 0
    ensures r <= n
  {
    if n == 0 then 0 else DivBounds(n - 1, window); (n - 1) / window + 1
  }

  /** `NumWindows(n, window)` is the ceiling of `n / window`: the least number of
      windows of `window` elements that covers `n` elements. */
  lemma NumWindowsIsCeiling(n: SizeT, window: SizeT)
    requires window > 0
    ensures n == 0 ==> NumWindows(n, window) == 0
    ensures n > 0 ==> (NumWindows(n, window) - 1) * window < n <= NumWindows(n, window) * window
  {
    if n > 0 {
      var q := (n - 1) / window;
      DivModBasics(n - 1, window);
      assert (q + 1) * window == q * window + window;
    }
  }

  /** Whenever `n + window - 1` fits in `size_t`, the source's formula agrees with
      `NumWindows`. */
  lemma NumWindowsAsWrittenAgrees(n: SizeT, window: SizeT)
    requires window > 0 && n + window - 1 < SIZE_MODULUS
    ensures NumWindowsAsWritten(n, window) == NumWindows(n, window)
  {
    var x := n + window - 1;
    assert WrapAdd(n, window - 1) == x;
    if n == 0 {
      DivModUnique(x, window, 0, window - 1);
    } else {
      var q', r' := (n - 1) / window, (n - 1) % window;
      DivModBasics(n - 1, window);
      assert x == (q' + 1) * window + r';
      DivModUnique(x, window, q' + 1, r');
    }
  }

  /** With `n = 10` and `window = 2^64 - 1` the wrapped formula yields no window
      at all, though the loop still writes the one window `[0, 10)`. */
  lemma NumWindowsAsWrittenWraps()
    ensures NumWindowsAsWritten(10, SIZE_MODULUS - 1) == 0
    ensures NumWindows(10, SIZE_MODULUS - 1) == 1
  {
  }

  /** `limit = (i + window > n) ? n - i : window`: the number of real elements of
      the window that starts at `i`. */
  function Limit(n: SizeT, window: SizeT, i: nat): (limit: nat)
    requires window > 0 && i < n
    ensures limit == Min(window, n - i)
    ensures 0 < limit && i + limit <= n
  {
    if i + window > n then n - i else window
  }

  /** Window `m` (below `NumWindows`) starts inside the input, its start divided
      by `window` is `m` again, and it ends where window `m + 1` starts or at `n`. */
  lemma WindowSlot(n: SizeT, window: SizeT, m: nat)
    requires window > 0 && m < NumWindows(n, window)
    ensures m * window < n
    ensures (m * window) / window == m
    ensures m * window + Limit(n, window, m * window) == Min((m + 1) * window, n)
  {
    NumWindowsIsCeiling(n, window);
    MulMonotone(m, NumWindows(n, window) - 1, window);
    assert (m + 1) * window == m * window + window;
    MulDivCancel(m, window);
  }

  /** Every window start `i < n` (a multiple of `window`) writes slot
      `i / window`, which is below `NumWindows`; with `WindowSlot`, the starts and
      the slots correspond one to one. */
  lemma SlotInRange(n: SizeT, window: SizeT, i: nat)
    requires window > 0 && i < n && i % window == 0
    ensures i / window < NumWindows(n, window)
    ensures (i / window) * window == i
  {
    NumWindowsIsCeiling(n, window);
    var m := i / window;
    DivModBasics(i, window);
    if m >= NumWindows(n, window) {
      MulMonotone(NumWindows(n, window), m, window);
    }
  }

  /** While `n <= 2^63`, neither `i + window` in the `limit` test nor the step
      `i += window` wraps, for any window start `i`. */
  lemma StartsDoNotWrap(n: SizeT, window: SizeT, m: nat)
    requires window > 0 && m < NumWindows(n, window)
    requires n <= SIZE_MODULUS / 2
    ensures m * window + window < SIZE_MODULUS
  {
    WindowSlot(n, window, m);
    if m > 0 {
      MulMonotone(1, m, window);
    }
  }

  /** The mean square of window `m` of `s`: the squares of its `limit` real
      elements divided by `limit` itself, not by the padded lane count. */
  function WindowMeanSquare(s: seq<real>, window: SizeT, m: nat): real
    requires window > 0 && |s| < SIZE_MODULUS && m < NumWindows(|s|, window)
  {
    WindowSlot(|s|, window, m);
    var start := m * window;
    var limit := Limit(|s|, window, start);
    SumSquares(s[start..start + limit]) / (limit as real)
  }

  /** Window `m` is the slice of `limit` elements at `m * window`. */
  lemma WindowMeanSquareOf(s: seq<real>, window: SizeT, m: nat, start: nat, limit: nat)
    requires window > 0 && |s| < SIZE_MODULUS && m < NumWindows(|s|, window)
    requires start == m * window && start < |s| && limit == Limit(|s|, window, start)
    ensures start + limit <= |s|
    ensures WindowMeanSquare(s, window, m) == SumSquares(s[start..start + limit]) / (limit as real)
  {
  }

  /** A window at least as long as the input gives one window over the whole input. */
  lemma SingleWindow(s: seq<real>, window: SizeT)
    requires 0 < |s| <= window && |s| < SIZE_MODULUS
    ensures NumWindows(|s|, window) == 1
    ensures WindowMeanSquare(s, window, 0) == SumSquares(s) / (|s| as real)
  {
    DivModUnique(|s| - 1, window, 0, |s| - 1);
    assert 0 * window == 0;
    WindowMeanSquareOf(s, window, 0, 0, |s|);
    assert s[0..0 + |s|] == s;
  }

  /** Ten elements in windows of four: windows of 4, 4 and 2 elements, the last
      one's mean square taken over its two real elements only. */
  lemma RaggedTail(s: seq<real>)
    requires |s| == 10
    ensures NumWindows(10, 4) == 3
    ensures Limit(10, 4, 0) == 4 && Limit(10, 4, 4) == 4 && Limit(10, 4, 8) == 2
    ensures WindowMeanSquare(s, 4, 2) == (s[8] * s[8] + s[9] * s[9]) / 2.0
  {
    var t := s[8..10];
    assert t[..1] == [s[8]];
    assert [s[8]][..0] == [];
    assert SumSquares([s[8]]) == s[8] * s[8];
    assert SumSquares(t) == s[8] * s[8] + s[9] * s[9];
  }
}
