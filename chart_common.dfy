/**
 * Computations the chart components share: the exclusive hot-day categories,
 * the tropical-night test, the list of years the yearly charts iterate over
 * (`Array.from(new Set(years)).sort()`), the era summaries, and the centred
 * moving averages built with `map`, `slice` and `reduce`.
 */
module ChartCommon {
  import opened Numeric
  import opened Strings
  import opened Seqs
  import opened Sorting
  import opened TemperatureTypes

  // ---------------------------------------------------------------------------
  // Hot days and tropical nights

  /** 猛暑日 (max ≥ 35), 真夏日 (max ≥ 30), 夏日 (max ≥ 25), checked in that order. */
  datatype HeatBucket = ExtremeHot | VeryHot | HotSummer | NotHot

  /** The `if (max >= 35) … else if (max >= 30) … else if (max >= 25)` chain. */
  function Bucket(maxTemp: real): (b: HeatBucket)
    ensures b == ExtremeHot <==> maxTemp >= 35.0
    ensures b == VeryHot <==> 30.0 <= maxTemp < 35.0
    ensures b == HotSummer <==> 25.0 <= maxTemp < 30.0
    ensures b == NotHot <==> maxTemp < 25.0
  {
    if maxTemp >= 35.0 then ExtremeHot
    else if maxTemp >= 30.0 then VeryHot
    else if maxTemp >= 25.0 then HotSummer
    else NotHot
  }

  /** The records whose maximum falls in bucket `b`. */
  function InBucket(b: HeatBucket): TemperatureData -> bool
  {
    (r: TemperatureData) => Bucket(r.max_temp) == b
  }

  /** The records in one of the three hot buckets. */
  function IsHotDay(): TemperatureData -> bool
  {
    (r: TemperatureData) => r.max_temp >= 25.0
  }

  /** 熱帯夜: a night whose minimum is at least 25 °C. */
  predicate IsTropicalNight(minTemp: real)
  {
    minTemp >= 25.0
  }

  function TropicalRecord(): TemperatureData -> bool
  {
    (r: TemperatureData) => IsTropicalNight(r.min_temp)
  }

  /** The buckets are exclusive: together they count the hot days, at most every record once. */
  lemma BucketCounts(g: seq<TemperatureData>)
    ensures |Filter(g, InBucket(ExtremeHot))| + |Filter(g, InBucket(VeryHot))| + |Filter(g, InBucket(HotSummer))|
      == |Filter(g, IsHotDay())| <= |g|
  {
    FilterCountPartition(g, IsHotDay(), InBucket(ExtremeHot), InBucket(VeryHot), InBucket(HotSummer));
  }

  /**
   * The per-year loop of the yearly charts: `let` counters incremented inside
   * `yearData.forEach`, one per bucket.
   */
  method CountBuckets(g: seq<TemperatureData>) returns (extremeHot: nat, veryHot: nat, hotSummer: nat)
    ensures extremeHot == |Filter(g, InBucket(ExtremeHot))|
    ensures veryHot == |Filter(g, InBucket(VeryHot))|
    ensures hotSummer == |Filter(g, InBucket(HotSummer))|
  {
    extremeHot, veryHot, hotSummer := 0, 0, 0;
    for i := 0 to |g|
      invariant extremeHot == |Filter(g[..i], InBucket(ExtremeHot))|
      invariant veryHot == |Filter(g[..i], InBucket(VeryHot))|
      invariant hotSummer == |Filter(g[..i], InBucket(HotSummer))|
    {
      FilterPrefixStep(g, InBucket(ExtremeHot), i);
      FilterPrefixStep(g, InBucket(VeryHot), i);
      FilterPrefixStep(g, InBucket(HotSummer), i);
      if g[i].max_temp >= 35.0 {
        extremeHot := extremeHot + 1;
      } else if g[i].max_temp >= 30.0 {
        veryHot := veryHot + 1;
      } else if g[i].max_temp >= 25.0 {
        hotSummer := hotSummer + 1;
      }
    }
    assert g[..|g|] == g;
  }

  /** `if (d.min_temp >= 25) tropicalNights++` over a year's records. */
  method CountTropicalNights(g: seq<TemperatureData>) returns (n: nat)
    ensures n == |Filter(g, TropicalRecord())|
    ensures n <= |g|
  {
    n := 0;
    for i := 0 to |g|
      invariant n == |Filter(g[..i], TropicalRecord())|
    {
      FilterPrefixStep(g, TropicalRecord(), i);
      if g[i].min_temp >= 25.0 {
        n := n + 1;
      }
    }
    assert g[..|g|] == g;
  }

  // ---------------------------------------------------------------------------
  // The year axis

  /** `.sort()` without a comparator compares the numbers as strings. */
  function ByYearText(): (int, int) -> bool
  {
    (a: int, b: int) => StrLe(IntToString(a), IntToString(b))
  }

  lemma ByYearTextTotalPreorder()
    ensures TotalPreorder(ByYearText())
  {
    forall a: int, b: int
      ensures ByYearText()(a, b) || ByYearText()(b, a)
    {
      StrLeTotal(IntToString(a), IntToString(b));
    }
    forall a: int, b: int, c: int | ByYearText()(a, b) && ByYearText()(b, c)
      ensures ByYearText()(a, c)
    {
      StrLeTransitive(IntToString(a), IntToString(b), IntToString(c));
    }
  }

  function Identity(y: int): int { y }

  /** `Array.from(new Set(data.map(d => d.year))).sort()`. */
  function ChartYears(data: seq<TemperatureData>): seq<int>
  {
    SortBy(DistinctKeys(data, YearOf), ByYearText())
  }

  /**
   * The year list holds every year with a record exactly once, in the order of
   * the years' decimal renderings.
   */
  lemma ChartYearsShape(data: seq<TemperatureData>)
    ensures var ys := ChartYears(data);
      && (forall y :: y in ys <==> exists i :: 0 <= i < |data| && data[i].year == y)
      && KeysDistinct(ys, Identity)
      && Sorted(ys, ByYearText())
  {
    var ks := DistinctKeys(data, YearOf);
    var ys := ChartYears(data);
    assert multiset(ys) == multiset(ks);
    forall y
      ensures y in ys <==> y in ks
    {
      assert y in ys <==> y in multiset(ys);
      assert y in ks <==> y in multiset(ks);
    }
    assert KeysDistinct(ks, Identity);
    KeysDistinctPermutation(ks, ys, Identity);
    ByYearTextTotalPreorder();
    SortBySorted(ks, ByYearText());
  }

  lemma FourDigits(y: int)
    requires 1000 <= y <= 9999
    ensures |IntToString(y)| == 4
  {
    assert Pow10(4) == 10000 && Pow10(3) == 1000 by {
      assert Pow10(1) == 10 && Pow10(2) == 100;
    }
    NatToStringLength(y, 4);
  }

  /**
   * For four-digit years the text order is the numeric order, so the year list
   * ascends; "1000" would sort before "999" (NatToStringOrderAcrossLengths).
   */
  lemma ChartYearsAscending(data: seq<TemperatureData>)
    requires forall i :: 0 <= i < |data| ==> 1000 <= data[i].year <= 9999
    ensures var ys := ChartYears(data); forall i, j :: 0 <= i < j < |ys| ==> ys[i] < ys[j]
  {
    var ys := ChartYears(data);
    ChartYearsShape(data);
    forall i, j | 0 <= i < j < |ys|
      ensures ys[i] < ys[j]
    {
      assert ys[i] in ys && ys[j] in ys;
      FourDigits(ys[i]);
      FourDigits(ys[j]);
      assert ByYearText()(ys[i], ys[j]);
      NatToStringOrder(ys[i], ys[j]);
      assert Identity(ys[i]) != Identity(ys[j]);
    }
  }

  // ---------------------------------------------------------------------------
  // Era summaries

  /** 明治, 昭和, 平成 and 令和 as the charts filter them (the bounds overlap at 1989 and 2019). */
  datatype Era = Meiji | Showa | Heisei | Reiwa

  predicate InEra(e: Era, year: int)
  {
    match e
    case Meiji => 1880 <= year <= 1912
    case Showa => 1926 <= year <= 1989
    case Heisei => 1989 <= year <= 2019
    case Reiwa => year >= 2019
  }

  /** The year 1989 counts for both Shōwa and Heisei, 2019 for both Heisei and Reiwa. */
  lemma ErasOverlap()
    ensures InEra(Showa, 1989) && InEra(Heisei, 1989)
    ensures InEra(Heisei, 2019) && InEra(Reiwa, 2019)
    ensures forall y :: InEra(Showa, y) && InEra(Heisei, y) ==> y == 1989
    ensures forall y :: InEra(Heisei, y) && InEra(Reiwa, y) ==> y == 2019
  {
  }

  /**
   * `years.length ? years.reduce((sum, s) => sum + count(s), 0) / years.length : 0`
   * over the per-year counts `counts` of the years `years` in the era.
   */
  function EraAverage(years: seq<int>, counts: seq<nat>, e: Era): (avg: real)
    requires |years| == |counts|
    ensures (forall i :: 0 <= i < |years| ==> !InEra(e, years[i])) ==> avg == 0.0
    ensures |EraCounts(years, counts, e)| > 0 ==>
      MinOf(EraCounts(years, counts, e)) <= avg <= MaxOf(EraCounts(years, counts, e))
  {
    MeanOrZero(EraCounts(years, counts, e))
  }

  /** The counts of the years in the era, in order. */
  function EraCounts(years: seq<int>, counts: seq<nat>, e: Era): (xs: seq<real>)
    requires |years| == |counts|
    ensures |xs| == 0 <==> forall i :: 0 <= i < |years| ==> !InEra(e, years[i])
    ensures forall k :: 0 <= k < |xs| ==> xs[k] >= 0.0
  {
    if |years| == 0 then []
    else
      var xs := EraCounts(years[..|years| - 1], counts[..|counts| - 1], e);
      assert forall i :: 0 <= i < |years| - 1 ==> years[..|years| - 1][i] == years[i];
      if InEra(e, years[|years| - 1]) then xs + [counts[|counts| - 1] as real] else xs
  }

  /** `x` is the count of one of the era's years. */
  ghost predicate FromEraYear(years: seq<int>, counts: seq<nat>, e: Era, x: real)
  {
    exists i :: 0 <= i < |years| && i < |counts| && InEra(e, years[i]) && x == counts[i] as real
  }

  /** The averaged counts are exactly the counts of the era's years: each comes from one, each one is there. */
  lemma {:induction false} EraCountsOfEraYears(years: seq<int>, counts: seq<nat>, e: Era)
    requires |years| == |counts|
    ensures var xs := EraCounts(years, counts, e); forall k :: 0 <= k < |xs| ==> FromEraYear(years, counts, e, xs[k])
    ensures forall i :: 0 <= i < |years| && InEra(e, years[i]) ==> counts[i] as real in EraCounts(years, counts, e)
  {
    if |years| > 0 {
      var n := |years| - 1;
      var ys, cs := years[..n], counts[..n];
      EraCountsOfEraYears(ys, cs, e);
      var prev := EraCounts(ys, cs, e);
      var xs := EraCounts(years, counts, e);
      assert xs == prev + (if InEra(e, years[n]) then [counts[n] as real] else []);
      forall k | 0 <= k < |xs|
        ensures FromEraYear(years, counts, e, xs[k])
      {
        if k < |prev| {
          assert prev == EraCounts(ys, cs, e);
          assert 0 <= k < |EraCounts(ys, cs, e)|;
          assert FromEraYear(ys, cs, e, EraCounts(ys, cs, e)[k]);
          var i :| 0 <= i < |ys| && i < |cs| && InEra(e, ys[i]) && prev[k] == cs[i] as real;
          assert years[i] == ys[i] && counts[i] == cs[i];
        } else {
          assert InEra(e, years[n]) && xs[k] == counts[n] as real;
        }
      }
      forall i | 0 <= i < |years| && InEra(e, years[i])
        ensures counts[i] as real in xs
      {
        if i < n {
          assert ys[i] == years[i] && cs[i] == counts[i];
          assert counts[i] as real in prev;
        } else {
          assert xs[|xs| - 1] == counts[n] as real;
        }
      }
    }
  }

  /** When every year of a non-empty era has a count between `lo` and `hi`, so does the era's average. */
  lemma EraAverageBounded(years: seq<int>, counts: seq<nat>, e: Era, lo: real, hi: real)
    requires |years| == |counts|
    requires exists i :: 0 <= i < |years| && InEra(e, years[i])
    requires forall i :: 0 <= i < |years| && InEra(e, years[i]) ==> lo <= counts[i] as real <= hi
    ensures lo <= EraAverage(years, counts, e) <= hi
  {
    var xs := EraCounts(years, counts, e);
    EraCountsOfEraYears(years, counts, e);
    forall k | 0 <= k < |xs|
      ensures lo <= xs[k] <= hi
    {
      assert 0 <= k < |EraCounts(years, counts, e)|;
      assert FromEraYear(years, counts, e, EraCounts(years, counts, e)[k]);
      var i :| 0 <= i < |years| && i < |counts| && InEra(e, years[i]) && xs[k] == counts[i] as real;
    }
    var j :| 0 <= j < |years| && InEra(e, years[j]);
    assert counts[j] as real in xs;
  }

  // ---------------------------------------------------------------------------
  // Centred moving averages

  /** The window `slice(max(0, i - before), min(n, i + after + 1))`. */
  function Window(xs: seq<real>, i: nat, before: nat, after: nat): (w: seq<real>)
    requires i < |xs|
    ensures w == xs[Max(0, i - before)..Min(|xs| - 1, i + after) + 1]
    ensures 1 <= |w| <= before + after + 1
    ensures xs[i] in w
  {
    var start := if i - before < 0 then 0 else i - before;
    var end := if |xs| < i + after + 1 then |xs| else i + after + 1;
    assert xs[i] == xs[start..end][i - start];
    xs[start..end]
  }

  /**
   * `xs.map((_, i) => slice.reduce((sum, v) => sum + v, 0) / slice.length)`
   * with the window above: one value per input, each between the smallest and
   * the largest value of its window.
   */
  function MovingAverage(xs: seq<real>, before: nat, after: nat): (r: seq<real>)
    ensures |r| == |xs|
    ensures forall i :: 0 <= i < |xs| ==>
      MinOf(Window(xs, i, before, after)) <= r[i] <= MaxOf(Window(xs, i, before, after))
  {
    seq(|xs|, i requires 0 <= i < |xs| => Mean(Window(xs, i, before, after)))
  }

  /** Entry `i` of a moving average: the mean over its window, between the window's bounds. */
  lemma MovingAverageAt(xs: seq<real>, before: nat, after: nat, i: int)
    requires 0 <= i < |xs|
    ensures var w := Window(xs, i, before, after);
      && |MovingAverage(xs, before, after)| == |xs|
      && MovingAverage(xs, before, after)[i] == Mean(w)
      && MinOf(w) <= MovingAverage(xs, before, after)[i] <= MaxOf(w)
  {
  }

  /** Averages of counts are never negative. */
  lemma MovingAverageNonNegative(xs: seq<real>, before: nat, after: nat, i: int)
    requires forall k :: 0 <= k < |xs| ==> xs[k] >= 0.0
    requires 0 <= i < |xs|
    ensures MovingAverage(xs, before, after)[i] >= 0.0
  {
    var w := Window(xs, i, before, after);
    assert forall k :: 0 <= k < |w| ==> w[k] in xs;
  }

  lemma WindowOfConstant(xs: seq<real>, i: nat, before: nat, after: nat, c: real)
    requires i < |xs|
    requires forall k :: 0 <= k < |xs| ==> xs[k] == c
    ensures Mean(Window(xs, i, before, after)) == c
  {
    var w := Window(xs, i, before, after);
    assert forall k :: 0 <= k < |w| ==> w[k] in xs;
    MeanOfConstant(w, c);
  }

  /** A constant series is its own moving average. */
  lemma MovingAverageOfConstant(xs: seq<real>, before: nat, after: nat, c: real)
    requires forall i :: 0 <= i < |xs| ==> xs[i] == c
    ensures MovingAverage(xs, before, after) == xs
  {
    var r := MovingAverage(xs, before, after);
    forall i | 0 <= i < |xs|
      ensures r[i] == xs[i]
    {
      WindowOfConstant(xs, i, before, after, c);
    }
  }
}
