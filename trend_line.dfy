/**
 * `calculateTrendLine`: the ordinary-least-squares line through the points
 * (year, avg_max_temp) of an annual series, from the count and the four
 * running sums Σx, Σy, Σxy and Σx². The source divides by
 * `n·Σx² − (Σx)²` without a check; here a zero denominator gives `None`
 * instead of a NaN or infinite slope.
 */
module TrendLine {
  import opened Wrappers
  import opened TemperatureTypes

  datatype Line = Line(slope: real, intercept: real)

  /** The count and the four sums the source reduces the series to. */
  datatype Moments = Moments(n: real, sx: real, sy: real, sxy: real, sxx: real)

  function X(d: AnnualData): real { d.year as real }
  function Y(d: AnnualData): real { d.avg_max_temp }

  const NoMoments := Moments(0.0, 0.0, 0.0, 0.0, 0.0)

  /** One more point: the count and each of the four sums take its term. */
  function Add(m: Moments, d: AnnualData): Moments
  {
    Moments(m.n + 1.0, m.sx + X(d), m.sy + Y(d), m.sxy + X(d) * Y(d), m.sxx + X(d) * X(d))
  }

  /**
   * `n = annualData.length` and the four `annualData.reduce(...)` sums,
   * each folded left to right from 0.
   */
  function MomentsOf(s: seq<AnnualData>): Moments
  {
    if |s| == 0 then NoMoments else Add(MomentsOf(s[..|s| - 1]), s[|s| - 1])
  }

  lemma {:induction false} MomentsUnfold(s: seq<AnnualData>)
    requires |s| > 0
    ensures MomentsOf(s) == Add(MomentsOf(s[..|s| - 1]), s[|s| - 1])
  {
  }

  lemma {:induction false} InitIndex(s: seq<AnnualData>, i: int)
    requires 0 <= i < |s| - 1
    ensures s[..|s| - 1][i] == s[i]
  {
  }

  lemma {:induction false} MomentsCount(s: seq<AnnualData>)
    ensures MomentsOf(s).n == |s| as real
  {
    if |s| > 0 {
      MomentsCount(s[..|s| - 1]);
    }
  }

  lemma {:induction false} MomentsSnoc(s: seq<AnnualData>, d: AnnualData)
    ensures MomentsOf(s + [d]) == Add(MomentsOf(s), d)
  {
    assert (s + [d])[..|s|] == s;
  }

  /** `n * sumXX - sumX * sumX`. */
  function Denominator(m: Moments): real
  {
    m.n * m.sxx - m.sx * m.sx
  }

  /**
   * `slope = (n·Σxy − Σx·Σy) / (n·Σx² − (Σx)²)` and
   * `intercept = (Σy − slope·Σx) / n`; `None` when the denominator is 0.
   */
  function LineFromMoments(m: Moments): (r: Option<Line>)
    requires m.n > 0.0
    ensures r.None? <==> Denominator(m) == 0.0
    ensures r.Some? ==> r.value.slope * Denominator(m) == m.n * m.sxy - m.sx * m.sy
    ensures r.Some? ==> r.value.intercept * m.n == m.sy - r.value.slope * m.sx
  {
    var den := Denominator(m);
    if den == 0.0 then None
    else
      var slope := (m.n * m.sxy - m.sx * m.sy) / den;
      Some(Line(slope, (m.sy - slope * m.sx) / m.n))
  }

  lemma DenominatorOfNone()
    ensures Denominator(NoMoments) == 0.0
  {
  }

  /** `calculateTrendLine(annualData)`; the empty series has a zero denominator. */
  function CalculateTrendLine(s: seq<AnnualData>): (r: Option<Line>)
    ensures r.None? <==> Denominator(MomentsOf(s)) == 0.0
  {
    if |s| == 0 then DenominatorOfNone(); None
    else MomentsCount(s); LineFromMoments(MomentsOf(s))
  }

  // Identities on the moments, where no sequence is in sight.

  function Sq(a: real): real { a * a }

  lemma SquareNonNegative(a: real)
    ensures Sq(a) >= 0.0
  {
    if a < 0.0 {
      assert a * a == (-a) * (-a);
    }
  }

  /** Squares are at least 1 away from the interval (−1, 1). */
  lemma SquareAtLeastOne(a: real)
    requires a >= 1.0 || a <= -1.0
    ensures Sq(a) >= 1.0
  {
    if a <= -1.0 {
      assert Sq(a) == Sq(-a);
    }
  }

  /** Two different (integer) years are at squared distance at least 1. */
  lemma YearGap(y: int, d: AnnualData)
    requires d.year != y
    ensures Sq(y as real - X(d)) >= 1.0
  {
    SquareAtLeastOne(y as real - X(d));
  }

  /** Σ (x − xᵢ)² written with the moments: n·x² − 2x·Σx + Σx². */
  function SpreadOf(m: Moments, x: real): real
  {
    m.n * x * x - 2.0 * x * m.sx + m.sxx
  }

  lemma SpreadOfNone(x: real)
    ensures SpreadOf(NoMoments, x) == 0.0
  {
  }

  lemma SpreadOfAdd(m: Moments, d: AnnualData, x: real)
    ensures SpreadOf(Add(m, d), x) == SpreadOf(m, x) + Sq(x - X(d))
  {
  }

  lemma DenominatorOfAdd(m: Moments, d: AnnualData)
    ensures Denominator(Add(m, d)) == Denominator(m) + SpreadOf(m, X(d))
  {
  }

  /** Σ (yᵢ − (slope·xᵢ + intercept)) written with the moments. */
  function ResidualOf(m: Moments, l: Line): real
  {
    m.sy - l.slope * m.sx - m.n * l.intercept
  }

  /** Σ xᵢ·(yᵢ − (slope·xᵢ + intercept)) written with the moments. */
  function WeightedResidualOf(m: Moments, l: Line): real
  {
    m.sxy - l.slope * m.sxx - l.intercept * m.sx
  }

  /** How far the line misses one year's temperature. */
  function Residual(d: AnnualData, l: Line): real
  {
    Y(d) - (l.slope * X(d) + l.intercept)
  }

  /** The residual of one year, weighted by the year. */
  function Weighted(d: AnnualData, l: Line): real
  {
    X(d) * Residual(d, l)
  }

  lemma ResidualOfNone(l: Line)
    ensures ResidualOf(NoMoments, l) == 0.0
    ensures WeightedResidualOf(NoMoments, l) == 0.0
  {
  }

  lemma ResidualOfAdd(m: Moments, d: AnnualData, l: Line)
    ensures ResidualOf(Add(m, d), l) == ResidualOf(m, l) + Residual(d, l)
  {
  }

  lemma WeightedResidualOfAdd(m: Moments, d: AnnualData, l: Line)
    ensures WeightedResidualOf(Add(m, d), l) == WeightedResidualOf(m, l) + Weighted(d, l)
  {
  }

  lemma NormalEquationAlgebra(n: real, k: real, b: real, sx: real, sy: real, sxy: real, sxx: real)
    requires n > 0.0
    requires k * (n * sxx - sx * sx) == n * sxy - sx * sy
    requires b * n == sy - k * sx
    ensures sy - k * sx - n * b == 0.0
    ensures sxy - k * sxx - b * sx == 0.0
    ensures b + k * (sx / n) == sy / n
  {
    var w := sxy - k * sxx - b * sx;
    calc {
      n * w;
      n * sxy - k * (n * sxx) - (b * n) * sx;
      n * sxy - k * (n * sxx) - (sy - k * sx) * sx;
      n * sxy - sx * sy - k * (n * sxx - sx * sx);
      0.0;
    }
    assert b == (sy - k * sx) / n;
  }

  /**
   * The normal equations of least squares: both residual sums vanish at the
   * computed line, and the line passes through (Σx/n, Σy/n).
   */
  lemma NormalEquations(m: Moments)
    requires m.n > 0.0 && LineFromMoments(m).Some?
    ensures var l := LineFromMoments(m).value;
      && ResidualOf(m, l) == 0.0
      && WeightedResidualOf(m, l) == 0.0
      && l.intercept + l.slope * (m.sx / m.n) == m.sy / m.n
  {
    var l := LineFromMoments(m).value;
    NormalEquationAlgebra(m.n, l.slope, l.intercept, m.sx, m.sy, m.sxy, m.sxx);
  }

  /** Every point so far lies on y = a·x + b, as the two sums see it. */
  predicate OnLine(m: Moments, a: real, b: real)
  {
    m.sy == a * m.sx + m.n * b && m.sxy == a * m.sxx + b * m.sx
  }

  lemma OnLineNone(a: real, b: real)
    ensures OnLine(NoMoments, a, b)
  {
  }

  lemma OnLineAdd(m: Moments, d: AnnualData, a: real, b: real)
    requires OnLine(m, a, b) && Y(d) == a * X(d) + b
    ensures OnLine(Add(m, d), a, b)
  {
  }

  lemma ExactLineAlgebra(n: real, a: real, b: real, sx: real, sy: real, sxy: real, sxx: real, k: real, c: real)
    requires n > 0.0 && n * sxx - sx * sx != 0.0
    requires sy == a * sx + n * b
    requires sxy == a * sxx + b * sx
    requires k * (n * sxx - sx * sx) == n * sxy - sx * sy
    requires c * n == sy - k * sx
    ensures k == a && c == b
  {
    var den := n * sxx - sx * sx;
    assert n * sxy - sx * sy == a * den;
    assert (k - a) * den == 0.0;
    assert c * n == b * n;
  }

  /** Moments of points on one line with a nonzero denominator give back that line. */
  lemma LineOfOnLine(m: Moments, a: real, b: real)
    requires m.n > 0.0 && Denominator(m) != 0.0 && OnLine(m, a, b)
    ensures LineFromMoments(m) == Some(Line(a, b))
  {
    var l := LineFromMoments(m).value;
    ExactLineAlgebra(m.n, a, b, m.sx, m.sy, m.sxy, m.sxx, l.slope, l.intercept);
  }

  // The denominator as a sum of squares: adding a year x adds
  // SpreadOf(m, x) = Σ (x − xᵢ)² over the earlier years.

  lemma {:induction false} SpreadNonNegative(s: seq<AnnualData>, x: real)
    ensures SpreadOf(MomentsOf(s), x) >= 0.0
  {
    if |s| == 0 {
      SpreadOfNone(x);
    } else {
      SpreadNonNegative(s[..|s| - 1], x);
      SpreadOfAdd(MomentsOf(s[..|s| - 1]), s[|s| - 1], x);
      SquareNonNegative(x - X(s[|s| - 1]));
    }
  }

  /** Adding a year adds its squared distances to the earlier years. */
  lemma {:induction false} DenominatorSnoc(s: seq<AnnualData>, d: AnnualData)
    ensures Denominator(MomentsOf(s + [d])) == Denominator(MomentsOf(s)) + SpreadOf(MomentsOf(s), X(d))
  {
    MomentsSnoc(s, d);
    DenominatorOfAdd(MomentsOf(s), d);
  }

  lemma {:induction false} DenominatorNonNegative(s: seq<AnnualData>)
    ensures Denominator(MomentsOf(s)) >= 0.0
  {
    if |s| == 0 {
      DenominatorOfNone();
    } else {
      var init := s[..|s| - 1];
      assert s == init + [s[|s| - 1]];
      DenominatorNonNegative(init);
      DenominatorSnoc(init, s[|s| - 1]);
      SpreadNonNegative(init, X(s[|s| - 1]));
    }
  }

  /** The last year adds its squared distance to x. */
  lemma {:induction false} SpreadSnoc(s: seq<AnnualData>, x: real)
    requires |s| > 0
    ensures SpreadOf(MomentsOf(s), x) ==
      SpreadOf(MomentsOf(s[..|s| - 1]), x) + Sq(x - X(s[|s| - 1]))
  {
    MomentsUnfold(s);
    SpreadOfAdd(MomentsOf(s[..|s| - 1]), s[|s| - 1], x);
  }

  lemma {:induction false} SpreadPositiveLast(s: seq<AnnualData>, y: int)
    requires |s| > 0 && s[|s| - 1].year != y
    ensures SpreadOf(MomentsOf(s), y as real) > 0.0
  {
    YearGap(y, s[|s| - 1]);
    SpreadNonNegative(s[..|s| - 1], y as real);
    SpreadSnoc(s, y as real);
  }

  /** One year different from y makes the spread around y positive. */
  lemma {:induction false} SpreadPositive(s: seq<AnnualData>, y: int, i: int)
    requires 0 <= i < |s| && s[i].year != y
    ensures SpreadOf(MomentsOf(s), y as real) > 0.0
  {
    if i == |s| - 1 {
      SpreadPositiveLast(s, y);
    } else {
      InitIndex(s, i);
      SpreadPositive(s[..|s| - 1], y, i);
      SquareNonNegative(y as real - X(s[|s| - 1]));
      SpreadSnoc(s, y as real);
    }
  }

  lemma {:induction false} SpreadZero(s: seq<AnnualData>, x: real)
    requires forall i :: 0 <= i < |s| ==> X(s[i]) == x
    ensures SpreadOf(MomentsOf(s), x) == 0.0
  {
    if |s| == 0 {
      SpreadOfNone(x);
    } else {
      var init := s[..|s| - 1];
      assert forall i :: 0 <= i < |init| ==> init[i] == s[i];
      SpreadZero(init, x);
      SpreadOfAdd(MomentsOf(init), s[|s| - 1], x);
    }
  }

  /** Two different years make the denominator positive. */
  lemma {:induction false} DenominatorPositive(s: seq<AnnualData>, i: int, j: int)
    requires 0 <= i < |s| && 0 <= j < |s| && s[i].year != s[j].year
    ensures Denominator(MomentsOf(s)) > 0.0
  {
    var k := |s| - 1;
    var init := s[..k];
    assert s == init + [s[k]];
    DenominatorSnoc(init, s[k]);
    DenominatorNonNegative(init);
    SpreadNonNegative(init, X(s[k]));
    if i == k || j == k {
      var other := if i == k then j else i;
      InitIndex(s, other);
      SpreadPositive(init, s[k].year, other);
    } else {
      assert init[i] == s[i] && init[j] == s[j];
      DenominatorPositive(init, i, j);
    }
  }

  /** All years equal (a single year, or none) make the denominator 0. */
  lemma {:induction false} DenominatorZero(s: seq<AnnualData>)
    requires forall i, j :: 0 <= i < |s| && 0 <= j < |s| ==> s[i].year == s[j].year
    ensures Denominator(MomentsOf(s)) == 0.0
  {
    if |s| == 0 {
      DenominatorOfNone();
    } else {
      var k := |s| - 1;
      var init := s[..k];
      assert s == init + [s[k]];
      assert forall i :: 0 <= i < |init| ==> init[i] == s[i];
      DenominatorZero(init);
      DenominatorSnoc(init, s[k]);
      SpreadZero(init, X(s[k]));
    }
  }

  /** A trend line exists exactly when the series has two different years. */
  lemma {:induction false} TrendDefined(s: seq<AnnualData>)
    ensures CalculateTrendLine(s).Some? <==>
      exists i, j :: 0 <= i < |s| && 0 <= j < |s| && s[i].year != s[j].year
  {
    if exists i, j :: 0 <= i < |s| && 0 <= j < |s| && s[i].year != s[j].year {
      var i, j :| 0 <= i < |s| && 0 <= j < |s| && s[i].year != s[j].year;
      DenominatorPositive(s, i, j);
    } else {
      DenominatorZero(s);
    }
  }

  // What the line satisfies.

  /** Σ (yᵢ − (slope·xᵢ + intercept)), the sum of the residuals. */
  function Residuals(s: seq<AnnualData>, l: Line): real
  {
    if |s| == 0 then 0.0
    else Residuals(s[..|s| - 1], l) + Residual(s[|s| - 1], l)
  }

  /** Σ xᵢ·(yᵢ − (slope·xᵢ + intercept)), the residuals weighted by the year. */
  function WeightedResiduals(s: seq<AnnualData>, l: Line): real
  {
    if |s| == 0 then 0.0
    else WeightedResiduals(s[..|s| - 1], l) + Weighted(s[|s| - 1], l)
  }

  lemma {:induction false} ResidualSnoc(s: seq<AnnualData>, l: Line)
    requires |s| > 0
    ensures ResidualOf(MomentsOf(s), l) ==
      ResidualOf(MomentsOf(s[..|s| - 1]), l) + Residual(s[|s| - 1], l)
  {
    MomentsUnfold(s);
    ResidualOfAdd(MomentsOf(s[..|s| - 1]), s[|s| - 1], l);
  }

  lemma {:induction false} WeightedResidualSnoc(s: seq<AnnualData>, l: Line)
    requires |s| > 0
    ensures WeightedResidualOf(MomentsOf(s), l) ==
      WeightedResidualOf(MomentsOf(s[..|s| - 1]), l) + Weighted(s[|s| - 1], l)
  {
    MomentsUnfold(s);
    WeightedResidualOfAdd(MomentsOf(s[..|s| - 1]), s[|s| - 1], l);
  }

  lemma {:induction false} ResidualsClosed(s: seq<AnnualData>, l: Line)
    ensures Residuals(s, l) == ResidualOf(MomentsOf(s), l)
  {
    if |s| == 0 {
      ResidualOfNone(l);
    } else {
      ResidualsClosed(s[..|s| - 1], l);
      ResidualSnoc(s, l);
    }
  }

  lemma {:induction false} WeightedResidualsStep(s: seq<AnnualData>, l: Line)
    requires |s| > 0
    requires WeightedResiduals(s[..|s| - 1], l) == WeightedResidualOf(MomentsOf(s[..|s| - 1]), l)
    ensures WeightedResiduals(s, l) == WeightedResidualOf(MomentsOf(s), l)
  {
    WeightedResidualSnoc(s, l);
  }

  lemma {:induction false} WeightedResidualsClosed(s: seq<AnnualData>, l: Line)
    ensures WeightedResiduals(s, l) == WeightedResidualOf(MomentsOf(s), l)
  {
    if |s| == 0 {
      ResidualOfNone(l);
    } else {
      WeightedResidualsClosed(s[..|s| - 1], l);
      WeightedResidualsStep(s, l);
    }
  }

  /**
   * The line is the least-squares fit: it satisfies both normal equations
   * (the residuals, and the residuals weighted by the year, sum to 0), and
   * it passes through the point (mean year, mean temperature).
   */
  lemma {:induction false} TrendIsLeastSquares(s: seq<AnnualData>)
    requires CalculateTrendLine(s).Some?
    ensures |s| > 0
    ensures var l := CalculateTrendLine(s).value;
      && Residuals(s, l) == 0.0
      && WeightedResiduals(s, l) == 0.0
      && l.intercept + l.slope * (MomentsOf(s).sx / |s| as real) == MomentsOf(s).sy / |s| as real
  {
    var l := CalculateTrendLine(s).value;
    MomentsCount(s);
    ResidualsClosed(s, l);
    WeightedResidualsClosed(s, l);
    NormalEquations(MomentsOf(s));
  }

  lemma {:induction false} LineMoments(s: seq<AnnualData>, a: real, b: real)
    requires forall i :: 0 <= i < |s| ==> Y(s[i]) == a * X(s[i]) + b
    ensures OnLine(MomentsOf(s), a, b)
  {
    if |s| == 0 {
      OnLineNone(a, b);
    } else {
      var init := s[..|s| - 1];
      assert forall i :: 0 <= i < |init| ==> init[i] == s[i];
      LineMoments(init, a, b);
      OnLineAdd(MomentsOf(init), s[|s| - 1], a, b);
    }
  }

  /** Points that lie exactly on y = a·year + b give back slope a and intercept b. */
  lemma {:induction false} TrendOfExactLine(s: seq<AnnualData>, a: real, b: real)
    requires forall i :: 0 <= i < |s| ==> Y(s[i]) == a * X(s[i]) + b
    requires exists i, j :: 0 <= i < |s| && 0 <= j < |s| && s[i].year != s[j].year
    ensures CalculateTrendLine(s) == Some(Line(a, b))
  {
    TrendDefined(s);
    MomentsCount(s);
    LineMoments(s, a, b);
    LineOfOnLine(MomentsOf(s), a, b);
  }
}
