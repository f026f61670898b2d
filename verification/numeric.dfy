/** Exact-real models of the numeric primitives the renderer takes from Python and numpy. */
module Numeric {

  /** `y` lies between `a` and `b`, in whichever order they come. */
  predicate Between(y: real, a: real, b: real) {
    if a <= b then a <= y <= b else b <= y <= a
  }

  /** Python's `int()` on a float: truncation toward zero. */
  function Trunc(x: real): (n: int)
    ensures 0.0 <= x ==> 0 <= n && n as real <= x < n as real + 1.0
    ensures x < 0.0 ==> n <= 0 && n as real - 1.0 < x <= n as real
  {
    if x >= 0.0 then x.Floor else -((-x).Floor)
  }

  /** Truncation toward zero keeps the order of non-negative values. */
  lemma TruncMonotone(a: real, b: real)
    requires 0.0 <= a <= b
    ensures Trunc(a) <= Trunc(b)
  {
  }

  /** Python 3's `round()`: nearest integer, ties to the even neighbour. */
  function RoundHalfEven(x: real): (n: int)
    ensures -0.5 <= x - n as real <= 0.5
    ensures (x - n as real == 0.5 || x - n as real == -0.5) ==> n % 2 == 0
  {
    var f := x.Floor;
    var frac := x - f as real;
    if frac < 0.5 then f
    else if frac > 0.5 then f + 1
    else if f % 2 == 0 then f
    else f + 1
  }

  /** The two properties of `RoundHalfEven` single out its result: any integer that is
      within one half of `x`, and even on a tie, is that result. */
  lemma RoundHalfEvenUnique(x: real, m: int)
    requires -0.5 <= x - m as real <= 0.5
    requires (x - m as real == 0.5 || x - m as real == -0.5) ==> m % 2 == 0
    ensures m == RoundHalfEven(x)
  {
  }

  /** Rounding a value that lies in [0, c] for a non-negative integer `c` stays in [0, c]. */
  lemma RoundWithin(x: real, c: int)
    requires 0 <= c
    requires 0.0 <= x <= c as real
    ensures 0 <= RoundHalfEven(x) <= c
  {
  }

  /** Division by a positive real keeps order, strict order included. */
  lemma DivMonotone(a: real, b: real, d: real)
    requires 0.0 < d && a <= b
    ensures a / d <= b / d
    ensures a < b ==> a / d < b / d
  {
    assert (a / d) * d == a && (b / d) * d == b;
  }

  /** A non-zero real divided by itself is one. */
  lemma DivSelf(d: real)
    requires d != 0.0
    ensures d / d == 1.0
  {
  }

  /** `numpy.interp(x, [x0, x1], [y0, y1])`: clamped piecewise-linear interpolation. As in
      numpy, a point left of x0 takes y0, a point at or right of x1 takes y1 (so a degenerate
      range x0 == x1 maps x0 itself to y1), and a point exactly at x0 < x1 takes y0. */
  function Interp(x: real, x0: real, x1: real, y0: real, y1: real): (y: real)
    requires x0 <= x1
    ensures x < x0 ==> y == y0
    ensures x1 <= x ==> y == y1
    ensures x <= x0 && x0 < x1 ==> y == y0
    ensures Between(y, y0, y1)
    ensures x0 < x < x1 && y0 < y1 ==> y0 < y < y1
    ensures x0 < x < x1 && y1 < y0 ==> y1 < y < y0
  {
    if x < x0 then y0
    else if x1 <= x then y1
    else if x == x0 then y0
    else
      var t := (x - x0) / (x1 - x0);
      DivMonotone(0.0, x - x0, x1 - x0);
      DivMonotone(x - x0, x1 - x0, x1 - x0);
      DivSelf(x1 - x0);
      assert 0.0 < t < 1.0;
      y0 + t * (y1 - y0)
  }

  /** Between the sample points `Interp` lies on the straight line through them. */
  lemma InterpLinear(x: real, x0: real, x1: real, y0: real, y1: real)
    requires x0 < x1 && x0 <= x <= x1
    ensures (Interp(x, x0, x1, y0, y1) - y0) * (x1 - x0) == (x - x0) * (y1 - y0)
  {
    if x0 < x < x1 {
      var d, e, u := x1 - x0, y1 - y0, x - x0;
      var t := u / d;
      assert t * d == u;
      assert Interp(x, x0, x1, y0, y1) - y0 == t * e;
      assert (t * e) * d == (t * d) * e;
    }
  }

  /** `Interp` follows the direction of its sample values: it is non-decreasing in `x`
      when y0 <= y1 and non-increasing when y1 <= y0. */
  lemma InterpMonotone(x: real, x': real, x0: real, x1: real, y0: real, y1: real)
    requires x0 <= x1
    requires x <= x'
    ensures y0 <= y1 ==> Interp(x, x0, x1, y0, y1) <= Interp(x', x0, x1, y0, y1)
    ensures y1 <= y0 ==> Interp(x', x0, x1, y0, y1) <= Interp(x, x0, x1, y0, y1)
  {
    if x0 < x && x' < x1 {
      var t := (x - x0) / (x1 - x0);
      var t' := (x' - x0) / (x1 - x0);
      DivMonotone(x - x0, x' - x0, x1 - x0);
      if y0 <= y1 {
        MulMonotone(t, t', y1 - y0);
      } else {
        MulMonotone(t, t', y0 - y1);
        assert t * (y1 - y0) == -(t * (y0 - y1));
        assert t' * (y1 - y0) == -(t' * (y0 - y1));
      }
    }
  }

  /** Spacing of `numpy.linspace(a, b, n)`: the range divided into n - 1 equal steps. */
  function LinspaceStep(a: real, b: real, n: nat): (step: real)
    requires 2 <= n
    ensures ((n - 1) as real) * step == b - a
    ensures a <= b ==> 0.0 <= step
  {
    var m := (n - 1) as real;
    assert a <= b ==> 0.0 <= (b - a) / m by {
      if a <= b {
        DivMonotone(0.0, b - a, m);
      }
    }
    (b - a) / m
  }

  /** `numpy.linspace(a, b, n)[k]`. */
  function Linspace(a: real, b: real, n: nat, k: nat): (v: real)
    requires 2 <= n && k < n
    ensures k == 0 ==> v == a
    ensures k == n - 1 ==> v == b
  {
    a + (k as real) * LinspaceStep(a, b, n)
  }

  /** Multiplying by a non-negative real keeps order. */
  lemma MulMonotone(p: real, q: real, c: real)
    requires p <= q && 0.0 <= c
    ensures p * c <= q * c
  {
    assert q * c - p * c == (q - p) * c;
  }

  /** Non-negative multiples of a non-negative step, in the order of their factors. */
  lemma StepMultiples(j: real, k: real, m: real, step: real)
    requires 0.0 <= j <= k <= m && 0.0 <= step
    ensures 0.0 <= j * step <= k * step <= m * step
  {
    MulMonotone(0.0, j, step);
    MulMonotone(j, k, step);
    MulMonotone(k, m, step);
  }

  /** Over an ascending range, later `Linspace` points are never smaller. */
  lemma LinspaceAscending(a: real, b: real, n: nat, j: nat, k: nat)
    requires 2 <= n && j <= k < n
    requires a <= b
    ensures Linspace(a, b, n, j) <= Linspace(a, b, n, k)
    ensures a <= Linspace(a, b, n, j) <= b
  {
    StepMultiples(j as real, k as real, (n - 1) as real, LinspaceStep(a, b, n));
  }

  /** Consecutive `Linspace` points are one equal step apart. */
  lemma LinspaceEvenSteps(a: real, b: real, n: nat, k: nat)
    requires 2 <= n && k + 1 < n
    ensures Linspace(a, b, n, k + 1) - Linspace(a, b, n, k) == LinspaceStep(a, b, n)
  {
  }

  function Sum(s: seq<real>): real
  {
    if |s| == 0 then 0.0 else s[0] + Sum(s[1..])
  }

  /** `numpy.mean` of a non-empty slice. */
  function Mean(s: seq<real>): real
    requires |s| > 0
  {
    Sum(s) / (|s| as real)
  }

  /** A value within [lo, hi] added to a sum within [m·lo, m·hi] gives a sum within
      [(m + 1)·lo, (m + 1)·hi]. */
  lemma ExtendBounds(m: real, lo: real, hi: real, x: real, rest: real)
    requires lo <= x <= hi && m * lo <= rest <= m * hi
    ensures (m + 1.0) * lo <= x + rest <= (m + 1.0) * hi
  {
    assert (m + 1.0) * lo == m * lo + lo;
    assert (m + 1.0) * hi == m * hi + hi;
  }

  /** The sum of an array whose entries lie in [lo, hi] lies in [n·lo, n·hi] for its length n. */
  lemma {:induction false} SumBounds(s: seq<real>, lo: real, hi: real)
    requires forall i :: 0 <= i < |s| ==> lo <= s[i] <= hi
    ensures (|s| as real) * lo <= Sum(s) <= (|s| as real) * hi
  {
    if |s| > 0 {
      var tail := s[1..];
      assert forall i :: 0 <= i < |tail| ==> tail[i] == s[i + 1];
      SumBounds(tail, lo, hi);
      assert |s| as real == |tail| as real + 1.0;
      ExtendBounds(|tail| as real, lo, hi, s[0], Sum(tail));
    }
  }

  /** Dividing a value within [n·lo, n·hi] by a positive n gives a value within [lo, hi]. */
  lemma DivBounds(n: real, lo: real, x: real, hi: real)
    requires 0.0 < n && n * lo <= x <= n * hi
    ensures lo <= x / n <= hi
  {
    DivMonotone(n * lo, x, n);
    DivMonotone(x, n * hi, n);
    assert (n * lo) / n == lo && (n * hi) / n == hi;
  }

  /** The mean of a non-empty array whose entries lie in [lo, hi] lies in [lo, hi]. */
  lemma MeanBetween(s: seq<real>, lo: real, hi: real)
    requires |s| > 0
    requires forall i :: 0 <= i < |s| ==> lo <= s[i] <= hi
    ensures lo <= Mean(s) <= hi
  {
    SumBounds(s, lo, hi);
    DivBounds(|s| as real, lo, Sum(s), hi);
  }

  /** The mean of a non-empty slice lies between its minimum and its maximum. */
  lemma MeanWithin(s: seq<real>)
    requires |s| > 0
    ensures SeqMin(s) <= Mean(s) <= SeqMax(s)
  {
    MeanBetween(s, SeqMin(s), SeqMax(s));
  }

  /** A sequence that is zero everywhere except possibly at index `t`, where it holds `c`,
      sums to `c` when `t` is an index of it and to zero otherwise. */
  lemma {:induction false} SumOfIndicator(s: seq<real>, t: int, c: real)
    requires forall j :: 0 <= j < |s| ==> s[j] == (if j == t then c else 0.0)
    ensures Sum(s) == (if 0 <= t < |s| then c else 0.0)
  {
    if |s| > 0 {
      var tail := s[1..];
      forall j | 0 <= j < |tail|
        ensures tail[j] == (if j == t - 1 then c else 0.0)
      {
        assert tail[j] == s[j + 1];
      }
      SumOfIndicator(tail, t - 1, c);
    }
  }

  /** `numpy.max` of a non-empty array. */
  function SeqMax(s: seq<real>): (m: real)
    requires |s| > 0
    ensures forall i :: 0 <= i < |s| ==> s[i] <= m
    ensures exists i :: 0 <= i < |s| && s[i] == m
  {
    if |s| == 1 then s[0]
    else
      var rest := SeqMax(s[1..]);
      assert forall i :: 1 <= i < |s| ==> s[i] == s[1..][i - 1];
      if s[0] >= rest then s[0] else rest
  }

  /** `numpy.min` of a non-empty array. */
  function SeqMin(s: seq<real>): (m: real)
    requires |s| > 0
    ensures forall i :: 0 <= i < |s| ==> m <= s[i]
    ensures exists i :: 0 <= i < |s| && s[i] == m
  {
    if |s| == 1 then s[0]
    else
      var rest := SeqMin(s[1..]);
      assert forall i :: 1 <= i < |s| ==> s[i] == s[1..][i - 1];
      if s[0] <= rest then s[0] else rest
  }
}
