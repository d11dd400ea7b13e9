/**
 * Exact arithmetic on temperatures. JavaScript and Python numbers are modelled as
 * Dafny reals (no floating point): sums and means as `reduce((s, t) => s + t, 0) / n`,
 * the one-decimal rounding `Math.round(x * 10) / 10` used by the aggregation code,
 * Python's half-to-even `round`, and the population variance.
 */
module Numeric {

  /** Left-to-right sum, as `xs.reduce((sum, t) => sum + t, 0)`. */
  function Sum(xs: seq<real>): real
  {
    if |xs| == 0 then 0.0 else Sum(xs[..|xs| - 1]) + xs[|xs| - 1]
  }

  lemma {:induction false} SumAppend(xs: seq<real>, ys: seq<real>)
    ensures Sum(xs + ys) == Sum(xs) + Sum(ys)
    decreases |ys|
  {
    if |ys| == 0 {
      assert xs + ys == xs;
    } else {
      var init := ys[..|ys| - 1];
      assert (xs + ys)[..|xs + ys| - 1] == xs + init;
      SumAppend(xs, init);
    }
  }

  /** Every element between `lo` and `hi` bounds the sum by `n * lo` and `n * hi`. */
  lemma {:induction false} SumBounds(xs: seq<real>, lo: real, hi: real)
    requires forall i :: 0 <= i < |xs| ==> lo <= xs[i] <= hi
    ensures |xs| as real * lo <= Sum(xs) <= |xs| as real * hi
  {
    if |xs| > 0 {
      var init := xs[..|xs| - 1];
      assert forall i :: 0 <= i < |init| ==> init[i] == xs[i];
      SumBounds(init, lo, hi);
    }
  }

  function MinOf(xs: seq<real>): (m: real)
    requires |xs| > 0
    ensures forall i :: 0 <= i < |xs| ==> m <= xs[i]
    ensures exists i :: 0 <= i < |xs| && m == xs[i]
  {
    if |xs| == 1 then xs[0]
    else
      var m := MinOf(xs[..|xs| - 1]);
      assert forall i :: 0 <= i < |xs| - 1 ==> xs[..|xs| - 1][i] == xs[i];
      if xs[|xs| - 1] < m then xs[|xs| - 1] else m
  }

  function MaxOf(xs: seq<real>): (m: real)
    requires |xs| > 0
    ensures forall i :: 0 <= i < |xs| ==> xs[i] <= m
    ensures exists i :: 0 <= i < |xs| && m == xs[i]
  {
    if |xs| == 1 then xs[0]
    else
      var m := MaxOf(xs[..|xs| - 1]);
      assert forall i :: 0 <= i < |xs| - 1 ==> xs[..|xs| - 1][i] == xs[i];
      if xs[|xs| - 1] > m then xs[|xs| - 1] else m
  }

  /** Arithmetic mean `sum / length`; it lies between the smallest and the largest element. */
  function Mean(xs: seq<real>): (m: real)
    requires |xs| > 0
    ensures MinOf(xs) <= m <= MaxOf(xs)
  {
    SumBounds(xs, MinOf(xs), MaxOf(xs));
    QuotientBetween(Sum(xs), |xs| as real, MinOf(xs), MaxOf(xs));
    Sum(xs) / |xs| as real
  }

  lemma QuotientBetween(total: real, n: real, lo: real, hi: real)
    requires n > 0.0
    requires n * lo <= total <= n * hi
    ensures lo <= total / n <= hi
  {
    var q := total / n;
    assert q * n == total;
  }

  /** `list.length ? sum / length : 0`: the era averages of the charts. */
  function MeanOrZero(xs: seq<real>): (m: real)
    ensures |xs| == 0 ==> m == 0.0
    ensures |xs| > 0 ==> m == Mean(xs)
  {
    if |xs| == 0 then 0.0 else Mean(xs)
  }

  /** A mean of a constant sequence is that constant. */
  lemma {:induction false} MeanOfConstant(xs: seq<real>, c: real)
    requires |xs| > 0
    requires forall i :: 0 <= i < |xs| ==> xs[i] == c
    ensures Mean(xs) == c
  {
    SumBounds(xs, c, c);
  }

  // ---------------------------------------------------------------------------
  // Rounding to one decimal

  /** `y` is a multiple of 0.1. */
  predicate OnGrid(y: real)
  {
    (10.0 * y).Floor as real == 10.0 * y
  }

  /**
   * `Math.round(x * 10) / 10`. `Math.round` rounds half-way cases towards
   * positive infinity, which is `Floor(10x + 1/2)`.
   */
  function Round1(x: real): (r: real)
    ensures OnGrid(r)
    ensures -0.05 < r - x <= 0.05
  {
    var k := (10.0 * x + 0.5).Floor;
    assert 10.0 * (k as real / 10.0) == k as real;
    (k as real) / 10.0
  }

  lemma Round1OfGrid(y: real)
    requires OnGrid(y)
    ensures Round1(y) == y
  {
    var k := (10.0 * y).Floor;
    var j := (10.0 * y + 0.5).Floor;
    assert j as real <= k as real + 0.5 < j as real + 1.0;
    assert j == k;
  }

  /** Rounding twice is rounding once. */
  lemma Round1Idempotent(x: real)
    ensures Round1(Round1(x)) == Round1(x)
  {
    Round1OfGrid(Round1(x));
  }

  lemma Round1Monotone(x: real, y: real)
    requires x <= y
    ensures Round1(x) <= Round1(y)
  {
    var kx := (10.0 * x + 0.5).Floor;
    var ky := (10.0 * y + 0.5).Floor;
    assert kx as real < ky as real + 1.0;
    assert kx <= ky;
    assert Round1(x) == kx as real / 10.0 && Round1(y) == ky as real / 10.0;
  }

  /** A value between two multiples of 0.1 still lies between them after rounding. */
  lemma Round1Between(lo: real, hi: real, v: real)
    requires OnGrid(lo) && OnGrid(hi)
    requires lo <= v <= hi
    ensures lo <= Round1(v) <= hi
  {
    Round1Monotone(lo, v);
    Round1Monotone(v, hi);
    Round1OfGrid(lo);
    Round1OfGrid(hi);
  }

  /**
   * The rounded difference of two values differs from the difference of the
   * rounded values by at most 0.1 (`temp_diff` against `avg_max - avg_min`).
   */
  lemma Round1DiffWithin(a: real, b: real)
    ensures -0.1 <= Round1(a - b) - (Round1(a) - Round1(b)) <= 0.1
  {
    var ka := (10.0 * a + 0.5).Floor;
    var kb := (10.0 * b + 0.5).Floor;
    var kd := (10.0 * (a - b) + 0.5).Floor;
    assert ka as real <= 10.0 * a + 0.5 < ka as real + 1.0;
    assert kb as real <= 10.0 * b + 0.5 < kb as real + 1.0;
    assert kd as real <= 10.0 * (a - b) + 0.5 < kd as real + 1.0;
    assert -1 <= kd - (ka - kb) <= 1;
    assert Round1(a - b) - (Round1(a) - Round1(b)) == (kd - ka + kb) as real / 10.0;
  }

  /**
   * Python's `round(v)` on a real: the nearest integer, ties to the even one.
   */
  function RoundHalfEven(v: real): (k: int)
    ensures -0.5 <= k as real - v <= 0.5
    ensures (k as real - v == 0.5 || k as real - v == -0.5) ==> k % 2 == 0
  {
    var f := v.Floor;
    var frac := v - f as real;
    if frac < 0.5 then f
    else if frac > 0.5 then f + 1
    else if f % 2 == 0 then f
    else f + 1
  }

  /** `round(x * 10) / 10` in Python. */
  function PyRound1(x: real): real
  {
    RoundHalfEven(10.0 * x) as real / 10.0
  }

  /** Off the half-way points, Python's rounding agrees with `Math.round`. */
  lemma PyRound1AgreesOffTies(x: real)
    requires (10.0 * x - 0.5).Floor as real != 10.0 * x - 0.5
    ensures PyRound1(x) == Round1(x)
  {
    var f := (10.0 * x).Floor;
    var j := (10.0 * x + 0.5).Floor;
    assert f as real <= 10.0 * x < f as real + 1.0;
    assert j as real <= 10.0 * x + 0.5 < j as real + 1.0;
    if 10.0 * x - f as real < 0.5 {
      assert j == f;
    } else {
      assert 10.0 * x - f as real != 0.5;
      assert j == f + 1;
    }
  }

  /** A tie on which the two roundings differ: 0.25 becomes 0.3 in JavaScript and 0.2 in Python. */
  lemma PyRound1DiffersOnTie()
    ensures Round1(0.25) == 0.3 && PyRound1(0.25) == 0.2
  {
    assert (10.0 * 0.25 + 0.5).Floor == 3;
    assert (10.0 * 0.25).Floor == 2;
  }

  // ---------------------------------------------------------------------------
  // Population variance

  /** Sum of `(x - m)^2`, as `values.reduce((sum, v) => sum + Math.pow(v - m, 2), 0)`. */
  function SumSquaredDeviations(xs: seq<real>, m: real): (r: real)
    ensures r >= 0.0
  {
    if |xs| == 0 then 0.0
    else
      SquareNonNegative(xs[|xs| - 1] - m);
      SumSquaredDeviations(xs[..|xs| - 1], m) + (xs[|xs| - 1] - m) * (xs[|xs| - 1] - m)
  }

  lemma SquareNonNegative(d: real)
    ensures d * d >= 0.0
  {
    if d < 0.0 {
      assert d * d == (-d) * (-d);
    }
  }

  /** Population variance: squared deviations from the mean divided by the count. */
  function Variance(xs: seq<real>): (v: real)
    requires |xs| > 0
    ensures v >= 0.0
  {
    SumSquaredDeviations(xs, Mean(xs)) / |xs| as real
  }

  /** A single sample has variance 0 (its standard deviation is 0). */
  lemma VarianceOfSingle(x: real)
    ensures Mean([x]) == x && Variance([x]) == 0.0
  {
    assert [x][..0] == [];
    assert Sum([x]) == x;
    assert SumSquaredDeviations([x], x) == 0.0;
  }

  /** A constant sequence has variance 0. */
  lemma {:induction false} VarianceOfConstant(xs: seq<real>, c: real)
    requires |xs| > 0
    requires forall i :: 0 <= i < |xs| ==> xs[i] == c
    ensures Variance(xs) == 0.0
  {
    MeanOfConstant(xs, c);
    SquaredDeviationsOfConstant(xs, c);
  }

  lemma {:induction false} SquaredDeviationsOfConstant(xs: seq<real>, c: real)
    requires forall i :: 0 <= i < |xs| ==> xs[i] == c
    ensures SumSquaredDeviations(xs, c) == 0.0
  {
    if |xs| > 0 {
      var init := xs[..|xs| - 1];
      assert forall i :: 0 <= i < |init| ==> init[i] == xs[i];
      SquaredDeviationsOfConstant(init, c);
    }
  }

  /**
   * `d >= 2 * sigma` for a positive `d` is `d^2 >= 4 * sigma^2`: the standard
   * deviation rule can be checked on the variance, without a square root.
   */
  lemma TwoSigmaBySquares(d: real, sigma: real)
    requires d > 0.0 && sigma >= 0.0
    ensures d >= 2.0 * sigma <==> d * d >= 4.0 * (sigma * sigma)
  {
    if d >= 2.0 * sigma {
      assert d * d >= (2.0 * sigma) * d >= (2.0 * sigma) * (2.0 * sigma);
    } else {
      assert d * d < (2.0 * sigma) * d;
      assert (2.0 * sigma) * d < (2.0 * sigma) * (2.0 * sigma);
    }
  }
}
