/**
 * The aggregation pipeline that turns the daily records into the series the
 * charts draw: an annual series whose missing years are filled by linear
 * interpolation, a monthly series, one month across the years, a day-of-year
 * series over a fixed non-leap calendar, and a least-squares trend line.
 *
 * Each accumulation loop is a method proved equal to a specification function;
 * the properties of the series are lemmas about those functions.
 */
module DataProcessor {
  import opened Wrappers
  import opened Numeric
  import opened Strings
  import opened Seqs
  import opened Sorting
  import opened TemperatureTypes

  // ---------------------------------------------------------------------------
  // Group averages

  /** `maxTemps.reduce(+) / maxTemps.length`, before rounding. */
  function AvgMax(g: seq<TemperatureData>): real
    requires |g| > 0
  {
    Mean(MaxTemps(g))
  }

  function AvgMin(g: seq<TemperatureData>): real
    requires |g| > 0
  {
    Mean(MinTemps(g))
  }

  /**
   * The entry of a year with records: each mean rounded to one decimal, and
   * `temp_diff` the rounded difference of the unrounded means.
   */
  function AnnualEntry(year: int, g: seq<TemperatureData>): (e: AnnualData)
    requires |g| > 0
    ensures e.year == year
    ensures e.avg_max_temp == Round1(AvgMax(g)) && e.avg_min_temp == Round1(AvgMin(g))
    ensures e.temp_diff == Round1(AvgMax(g) - AvgMin(g))
    ensures -0.1 <= e.temp_diff - (e.avg_max_temp - e.avg_min_temp) <= 0.1
  {
    Round1DiffWithin(AvgMax(g), AvgMin(g));
    AnnualData(year, Round1(AvgMax(g)), Round1(AvgMin(g)), Round1(AvgMax(g) - AvgMin(g)))
  }

  /** All three values of an entry are multiples of 0.1. */
  predicate AnnualOnGrid(e: AnnualData)
  {
    OnGrid(e.avg_max_temp) && OnGrid(e.avg_min_temp) && OnGrid(e.temp_diff)
  }

  function AnnualYear(e: AnnualData): int { e.year }

  /** `(d) => d.year === y`. */
  function AtYear(y: int): AnnualData -> bool
  {
    (e: AnnualData) => e.year == y
  }

  /** `(d) => d.year > y`. */
  function AboveYear(y: int): AnnualData -> bool
  {
    (e: AnnualData) => e.year > y
  }

  ghost predicate SortedByYear(s: seq<AnnualData>)
  {
    Sorted(s, ByIntKey(AnnualYear))
  }

  // ---------------------------------------------------------------------------
  // fillMissingYears

  /** The estimate for a missing year on the line from `prev` to `next`. */
  function Interpolate(prev: AnnualData, next: AnnualData, year: int): (e: AnnualData)
    requires prev.year < next.year
    ensures e.year == year && AnnualOnGrid(e)
  {
    var ratio := Ratio(prev, next, year);
    var mx := Lerp(prev.avg_max_temp, next.avg_max_temp, ratio);
    var mn := Lerp(prev.avg_min_temp, next.avg_min_temp, ratio);
    AnnualData(year, Round1(mx), Round1(mn), Round1(mx - mn))
  }

  /** `(year - prevData.year) / yearDiff`. */
  function Ratio(prev: AnnualData, next: AnnualData, year: int): real
    requires prev.year < next.year
  {
    (year - prev.year) as real / (next.year - prev.year) as real
  }

  /** `a + (b - a) * ratio`. */
  function Lerp(a: real, b: real, ratio: real): real
  {
    a + (b - a) * ratio
  }

  predicate Between(a: real, b: real, v: real)
  {
    (a <= v <= b) || (b <= v <= a)
  }

  lemma LerpBetween(a: real, b: real, r: real)
    requires 0.0 <= r <= 1.0
    ensures Between(a, b, Lerp(a, b, r))
  {
    MulNonNegative(if a <= b then b - a else a - b, r);
    MulNonNegative(if a <= b then b - a else a - b, 1.0 - r);
    assert (b - a) * r + (b - a) * (1.0 - r) == b - a;
  }

  lemma MulNonNegative(x: real, y: real)
    requires x >= 0.0 && y >= 0.0
    ensures x * y >= 0.0
  {
  }

  lemma Round1KeepsBetween(a: real, b: real, v: real)
    requires OnGrid(a) && OnGrid(b) && Between(a, b, v)
    ensures Between(a, b, Round1(v))
  {
    if a <= v <= b {
      Round1Between(a, b, v);
    } else {
      Round1Between(b, a, v);
    }
  }

  /**
   * A year strictly between `prev` and `next` gets values between theirs, when
   * theirs are on the 0.1 grid; its `temp_diff` is within 0.1 of the difference
   * of its two averages.
   */
  lemma InterpolateBetween(prev: AnnualData, next: AnnualData, year: int)
    requires prev.year < year < next.year
    requires OnGrid(prev.avg_max_temp) && OnGrid(prev.avg_min_temp)
    requires OnGrid(next.avg_max_temp) && OnGrid(next.avg_min_temp)
    ensures var e := Interpolate(prev, next, year);
      && Between(prev.avg_max_temp, next.avg_max_temp, e.avg_max_temp)
      && Between(prev.avg_min_temp, next.avg_min_temp, e.avg_min_temp)
      && -0.1 <= e.temp_diff - (e.avg_max_temp - e.avg_min_temp) <= 0.1
  {
    var ratio := Ratio(prev, next, year);
    RatioInUnit((year - prev.year) as real, (next.year - prev.year) as real);
    var mx := Lerp(prev.avg_max_temp, next.avg_max_temp, ratio);
    var mn := Lerp(prev.avg_min_temp, next.avg_min_temp, ratio);
    LerpBetween(prev.avg_max_temp, next.avg_max_temp, ratio);
    LerpBetween(prev.avg_min_temp, next.avg_min_temp, ratio);
    Round1KeepsBetween(prev.avg_max_temp, next.avg_max_temp, mx);
    Round1KeepsBetween(prev.avg_min_temp, next.avg_min_temp, mn);
    Round1DiffWithin(mx, mn);
    assert Interpolate(prev, next, year) == AnnualData(year, Round1(mx), Round1(mn), Round1(mx - mn));
  }

  lemma RatioInUnit(num: real, den: real)
    requires 0.0 < num < den
    ensures 0.0 <= num / den <= 1.0
  {
    assert (num / den) * den == num;
  }

  /**
   * The first `n` entries of the filled series over the year-sorted `sorted`:
   * one entry per year from the first year on; a year with an entry keeps the
   * first such entry, a year without one is interpolated between the entry
   * before it and the next year that has an entry.
   */
  function FillUpTo(sorted: seq<AnnualData>, n: nat): (r: seq<AnnualData>)
    requires |sorted| > 0
    requires n <= sorted[|sorted| - 1].year - sorted[0].year + 1
    ensures |r| == n
    ensures forall i :: 0 <= i < n ==> r[i].year == sorted[0].year + i
  {
    if n == 0 then []
    else
      var filled := FillUpTo(sorted, n - 1);
      var y := sorted[0].year + n - 1;
      match FindFirst(sorted, AtYear(y))
      case Some(e) => filled + [e]
      case None =>
        assert !AtYear(y)(sorted[0]) && !AtYear(y)(sorted[|sorted| - 1]);
        assert AboveYear(y)(sorted[|sorted| - 1]);
        var next := FindFirst(sorted, AboveYear(y)).value;
        filled + [Interpolate(filled[n - 2], next, y)]
  }

  /** The number of years from the first to the last year of a series. */
  function Span(sorted: seq<AnnualData>): (k: nat)
    requires |sorted| > 0 && sorted[0].year <= sorted[|sorted| - 1].year
    ensures k >= 1
  {
    sorted[|sorted| - 1].year - sorted[0].year + 1
  }

  lemma SortedYearEnds(sorted: seq<AnnualData>)
    requires |sorted| > 0 && SortedByYear(sorted)
    ensures sorted[0].year <= sorted[|sorted| - 1].year
  {
    if |sorted| > 1 {
      assert ByIntKey(AnnualYear)(sorted[0], sorted[|sorted| - 1]);
      assert AnnualYear(sorted[0]) <= AnnualYear(sorted[|sorted| - 1]);
    }
  }

  /** Sorting by year puts the earliest year first and the latest last. */
  lemma SortByYearEnds(data: seq<AnnualData>)
    requires |data| > 0
    ensures var sorted := SortBy(data, ByIntKey(AnnualYear));
      sorted[0].year <= sorted[|sorted| - 1].year
  {
    ByIntKeyTotalPreorder(AnnualYear);
    SortBySorted(data, ByIntKey(AnnualYear));
    SortedYearEnds(SortBy(data, ByIntKey(AnnualYear)));
  }

  /** What `fillMissingYears` returns: the input when empty, else the series filled from first to last year. */
  function FillMissingYearsSpec(data: seq<AnnualData>): seq<AnnualData>
  {
    if |data| == 0 then data
    else
      var sorted := SortBy(data, ByIntKey(AnnualYear));
      SortByYearEnds(data);
      FillUpTo(sorted, Span(sorted))
  }

  lemma FillMissingYearsSpecNonEmpty(data: seq<AnnualData>)
    requires |data| > 0
    ensures var sorted := SortBy(data, ByIntKey(AnnualYear));
      sorted[0].year <= sorted[|sorted| - 1].year &&
      FillMissingYearsSpec(data) == FillUpTo(sorted, Span(sorted))
  {
    SortByYearEnds(data);
  }

  /** A year with an entry adds its first entry to the filled series. */
  lemma FillStepRecorded(sorted: seq<AnnualData>, year: int, n: nat)
    requires |sorted| > 0
    requires n == year - sorted[0].year && year <= sorted[|sorted| - 1].year
    requires FindFirst(sorted, AtYear(year)).Some?
    ensures FillUpTo(sorted, n + 1) == FillUpTo(sorted, n) + [FindFirst(sorted, AtYear(year)).value]
  {
    assert sorted[0].year + (n + 1) - 1 == year;
  }

  /** A year without an entry adds the interpolation between the last filled entry and the next entry. */
  lemma FillStepGap(sorted: seq<AnnualData>, year: int, n: nat)
    requires |sorted| > 0
    requires n == year - sorted[0].year && year <= sorted[|sorted| - 1].year
    requires FindFirst(sorted, AtYear(year)).None?
    ensures var filled := FillUpTo(sorted, n);
      && |filled| > 0
      && FindFirst(sorted, AboveYear(year)).Some?
      && filled[|filled| - 1].year < FindFirst(sorted, AboveYear(year)).value.year
      && FillUpTo(sorted, n + 1) ==
         filled + [Interpolate(filled[|filled| - 1], FindFirst(sorted, AboveYear(year)).value, year)]
  {
    assert sorted[0].year + (n + 1) - 1 == year;
    assert !AtYear(year)(sorted[0]);
    assert !AtYear(year)(sorted[|sorted| - 1]);
    assert AboveYear(year)(sorted[|sorted| - 1]);
  }

  /** `fillMissingYears`: sorts by year, then walks the years from first to last. */
  method FillMissingYears(data: seq<AnnualData>) returns (filled: seq<AnnualData>)
    ensures filled == FillMissingYearsSpec(data)
  {
    if |data| == 0 {
      assert FillMissingYearsSpec(data) == data;
      return data;
    }
    var sortedData := SortBy(data, ByIntKey(AnnualYear));
    FillMissingYearsSpecNonEmpty(data);
    filled := FillSortedYears(sortedData);
  }

  /** The year loop of `fillMissingYears` over the year-sorted series. */
  method FillSortedYears(sortedData: seq<AnnualData>) returns (filled: seq<AnnualData>)
    requires |sortedData| > 0 && sortedData[0].year <= sortedData[|sortedData| - 1].year
    ensures filled == FillUpTo(sortedData, Span(sortedData))
  {
    var startYear := sortedData[0].year;
    var endYear := sortedData[|sortedData| - 1].year;
    filled := [];
    var year := startYear;
    ghost var n: nat := 0;
    while year <= endYear
      invariant startYear <= year <= endYear + 1
      invariant n == year - startYear
      invariant filled == FillUpTo(sortedData, n)
    {
      var existingData := FindFirst(sortedData, AtYear(year));
      if existingData.Some? {
        FillStepRecorded(sortedData, year, n);
        filled := filled + [existingData.value];
      } else {
        FillStepGap(sortedData, year, n);
        var prevData := if |filled| > 0 then Some(filled[|filled| - 1]) else None;
        var nextData := FindFirst(sortedData, AboveYear(year));
        if prevData.Some? && nextData.Some? {
          filled := filled + [Interpolate(prevData.value, nextData.value, year)];
        }
      }
      year := year + 1;
      n := n + 1;
    }
    assert n == Span(sortedData);
  }

  lemma {:induction false} FillUpToPrefix(sorted: seq<AnnualData>, m: nat, n: nat)
    requires |sorted| > 0
    requires m <= n <= sorted[|sorted| - 1].year - sorted[0].year + 1
    ensures FillUpTo(sorted, n)[..m] == FillUpTo(sorted, m)
  {
    if m < n {
      FillUpToPrefix(sorted, m, n - 1);
      assert FillUpTo(sorted, n)[..n - 1] == FillUpTo(sorted, n - 1);
    }
  }

  /** A year that has an entry keeps the first entry with that year. */
  lemma FillKeepsRecordedYear(sorted: seq<AnnualData>, n: nat, i: nat)
    requires |sorted| > 0
    requires i < n <= sorted[|sorted| - 1].year - sorted[0].year + 1
    requires FindFirst(sorted, AtYear(sorted[0].year + i)).Some?
    ensures FillUpTo(sorted, n)[i] == FindFirst(sorted, AtYear(sorted[0].year + i)).value
  {
    FillUpToPrefix(sorted, i + 1, n);
    assert FillUpTo(sorted, n)[i] == FillUpTo(sorted, n)[..i + 1][i];
  }

  /** A year without an entry is interpolated between the entry before it and the next year with one. */
  lemma FillInterpolatesGap(sorted: seq<AnnualData>, n: nat, i: nat)
    requires |sorted| > 0
    requires i < n <= sorted[|sorted| - 1].year - sorted[0].year + 1
    requires FindFirst(sorted, AtYear(sorted[0].year + i)).None?
    ensures i > 0 && FindFirst(sorted, AboveYear(sorted[0].year + i)).Some?
    ensures var r := FillUpTo(sorted, n);
      var next := FindFirst(sorted, AboveYear(sorted[0].year + i)).value;
      r[i - 1].year < next.year && r[i] == Interpolate(r[i - 1], next, sorted[0].year + i)
  {
    var y := sorted[0].year + i;
    assert !AtYear(y)(sorted[0]) && !AtYear(y)(sorted[|sorted| - 1]);
    assert AboveYear(y)(sorted[|sorted| - 1]);
    FillUpToPrefix(sorted, i + 1, n);
    var r := FillUpTo(sorted, n);
    assert r[i] == r[..i + 1][i] && r[i - 1] == r[..i + 1][i - 1];
  }

  /** Filling an on-grid series keeps every value on the grid. */
  lemma {:induction false} FillOnGrid(sorted: seq<AnnualData>, n: nat)
    requires |sorted| > 0
    requires n <= sorted[|sorted| - 1].year - sorted[0].year + 1
    requires forall i :: 0 <= i < |sorted| ==> AnnualOnGrid(sorted[i])
    ensures forall i :: 0 <= i < n ==> AnnualOnGrid(FillUpTo(sorted, n)[i])
  {
    if n > 0 {
      FillOnGrid(sorted, n - 1);
      var y := sorted[0].year + n - 1;
      var f := FindFirst(sorted, AtYear(y));
      if f.Some? {
        var k :| 0 <= k < |sorted| && sorted[k] == f.value;
      }
    }
  }

  // ---------------------------------------------------------------------------
  // aggregateAnnualData

  /** The entry of a year that occurs in `data`. */
  function AnnualEntryOf(data: seq<TemperatureData>, y: int): (e: AnnualData)
    requires y in DistinctKeys(data, YearOf)
    ensures e.year == y && AnnualOnGrid(e)
  {
    GroupNonEmpty(data, YearOf, y);
    var e := AnnualEntry(y, Group(data, YearOf, y));
    assert OnGrid(e.temp_diff);
    e
  }

  lemma AnnualEntryOfGroup(data: seq<TemperatureData>, y: int)
    requires y in DistinctKeys(data, YearOf)
    ensures |Group(data, YearOf, y)| > 0
    ensures AnnualEntryOf(data, y) == AnnualEntry(y, Group(data, YearOf, y))
  {
    GroupNonEmpty(data, YearOf, y);
  }

  /** The entries pushed while iterating the year `Map`, in its insertion order. */
  function YearEntries(data: seq<TemperatureData>): (es: seq<AnnualData>)
    ensures var years := DistinctKeys(data, YearOf);
      |es| == |years| && forall i :: 0 <= i < |es| ==> es[i] == AnnualEntryOf(data, years[i])
  {
    var years := DistinctKeys(data, YearOf);
    seq(|years|, i requires 0 <= i < |years| => AnnualEntryOf(data, years[i]))
  }

  /** The annual series of `aggregateAnnualData`: the year entries sorted by year, then filled. */
  function AnnualSeries(data: seq<TemperatureData>): seq<AnnualData>
  {
    FillMissingYearsSpec(SortBy(YearEntries(data), ByIntKey(AnnualYear)))
  }

  /** `aggregateAnnualData`: groups by year in a `Map`, averages each group, sorts, fills. */
  method AggregateAnnualData(data: seq<TemperatureData>) returns (result: seq<AnnualData>)
    ensures result == AnnualSeries(data)
  {
    var years, yearlyData := GroupBy(data, YearOf);
    var entries: seq<AnnualData> := [];
    ghost var all := YearEntries(data);
    for i := 0 to |years|
      invariant entries == all[..i]
    {
      var temps := yearlyData[years[i]];
      assert temps == Group(data, YearOf, years[i]);
      AnnualEntryOfGroup(data, years[i]);
      var entry := AnnualEntry(years[i], temps);
      assert entry == all[i];
      TakeSnoc(all, i);
      entries := entries + [entry];
    }
    assert entries == all;
    var sortedResult := SortBy(entries, ByIntKey(AnnualYear));
    result := FillMissingYears(sortedResult);
  }

  /** Every element of the sorted year entries is the entry of a year that occurs. */
  lemma SortedEntryIsYearEntry(data: seq<TemperatureData>, e: AnnualData)
    requires e in SortBy(YearEntries(data), ByIntKey(AnnualYear))
    ensures e.year in DistinctKeys(data, YearOf) && e == AnnualEntryOf(data, e.year)
  {
    var es := YearEntries(data);
    var years := DistinctKeys(data, YearOf);
    assert e in multiset(es);
    var i :| 0 <= i < |es| && es[i] == e;
    assert years[i] in years;
    assert e == AnnualEntryOf(data, years[i]);
  }

  /** A year occurs in the data exactly when the sorted entries hold an entry for it. */
  lemma YearEntryFound(data: seq<TemperatureData>, y: int)
    ensures var f := FindFirst(SortBy(YearEntries(data), ByIntKey(AnnualYear)), AtYear(y));
      (f.Some? <==> y in DistinctKeys(data, YearOf)) &&
      (f.Some? ==> f.value == AnnualEntryOf(data, y))
  {
    var es := YearEntries(data);
    var sorted := SortBy(es, ByIntKey(AnnualYear));
    var f := FindFirst(sorted, AtYear(y));
    if f.Some? {
      SortedEntryIsYearEntry(data, f.value);
    }
    if y in DistinctKeys(data, YearOf) {
      var years := DistinctKeys(data, YearOf);
      var i :| 0 <= i < |years| && years[i] == y;
      assert es[i] in multiset(sorted);
      var k :| 0 <= k < |sorted| && sorted[k] == es[i];
      assert AtYear(y)(sorted[k]);
    }
  }

  lemma SortedYearEntries(data: seq<TemperatureData>)
    ensures SortedByYear(SortBy(YearEntries(data), ByIntKey(AnnualYear)))
    ensures |SortBy(YearEntries(data), ByIntKey(AnnualYear))| == |DistinctKeys(data, YearOf)|
  {
    ByIntKeyTotalPreorder(AnnualYear);
    SortBySorted(YearEntries(data), ByIntKey(AnnualYear));
  }

  /** No records, no series; some records, a non-empty series. */
  lemma AnnualSeriesEmpty(data: seq<TemperatureData>)
    ensures AnnualSeries(data) == [] <==> |data| == 0
  {
    var years := DistinctKeys(data, YearOf);
    if |data| > 0 {
      assert YearOf(data[0]) in years;
      SortedYearEntries(data);
    }
  }

  /** Every element of a year-sorted series lies between its first and last year. */
  lemma SortedYearBounds(s: seq<AnnualData>, e: AnnualData)
    requires SortedByYear(s) && e in s
    ensures s[0].year <= e.year <= s[|s| - 1].year
  {
    var j :| 0 <= j < |s| && s[j] == e;
    if 0 < j {
      assert ByIntKey(AnnualYear)(s[0], s[j]);
      assert AnnualYear(s[0]) <= AnnualYear(s[j]);
    }
    if j < |s| - 1 {
      assert ByIntKey(AnnualYear)(s[j], s[|s| - 1]);
      assert AnnualYear(s[j]) <= AnnualYear(s[|s| - 1]);
    }
  }

  /** The year of every record occurs, and its entry is among the year entries. */
  lemma YearEntryPresent(data: seq<TemperatureData>, k: int)
    requires 0 <= k < |data|
    ensures data[k].year in DistinctKeys(data, YearOf)
    ensures AnnualEntryOf(data, data[k].year) in YearEntries(data)
  {
    var y := data[k].year;
    assert YearOf(data[k]) == y;
    var years := DistinctKeys(data, YearOf);
    assert y in years;
    var i :| 0 <= i < |years| && years[i] == y;
    assert YearEntries(data)[i] == AnnualEntryOf(data, y);
  }

  /**
   * `fillMissingYears` of a non-empty series: one entry per year, consecutive,
   * from the earliest year of the input to its latest.
   */
  lemma FillMissingYearsRange(d: seq<AnnualData>)
    requires |d| > 0
    ensures var r := FillMissingYearsSpec(d);
      && |r| > 0
      && (forall i :: 0 <= i < |r| ==> r[i].year == r[0].year + i)
      && (forall e :: e in d ==> r[0].year <= e.year <= r[|r| - 1].year)
      && (exists e :: e in d && e.year == r[0].year)
      && (exists e :: e in d && e.year == r[|r| - 1].year)
  {
    var sorted := SortBy(d, ByIntKey(AnnualYear));
    ByIntKeyTotalPreorder(AnnualYear);
    SortBySorted(d, ByIntKey(AnnualYear));
    FillMissingYearsSpecNonEmpty(d);
    var r := FillMissingYearsSpec(d);
    assert r[0].year == sorted[0].year && r[|r| - 1].year == sorted[|sorted| - 1].year;
    assert sorted[0] in multiset(d) && sorted[|sorted| - 1] in multiset(d);
    forall e | e in d
      ensures r[0].year <= e.year <= r[|r| - 1].year
    {
      assert e in multiset(sorted);
      SortedYearBounds(sorted, e);
    }
  }

  /**
   * For non-empty input the annual series has exactly one entry for every year
   * from the earliest to the latest year of the records, in ascending order,
   * and both end years occur in the records.
   */
  lemma AnnualSeriesContiguous(data: seq<TemperatureData>)
    requires |data| > 0
    ensures var r := AnnualSeries(data);
      && |r| > 0
      && (forall i :: 0 <= i < |r| ==> r[i].year == r[0].year + i)
      && (forall k :: 0 <= k < |data| ==> r[0].year <= data[k].year <= r[|r| - 1].year)
      && r[0].year in DistinctKeys(data, YearOf)
      && r[|r| - 1].year in DistinctKeys(data, YearOf)
  {
    var sorted := SortBy(YearEntries(data), ByIntKey(AnnualYear));
    SortedYearEntries(data);
    YearEntryPresent(data, 0);
    FillMissingYearsRange(sorted);
    var r := AnnualSeries(data);
    var e0 :| e0 in sorted && e0.year == r[0].year;
    var e1 :| e1 in sorted && e1.year == r[|r| - 1].year;
    SortedEntryIsYearEntry(data, e0);
    SortedEntryIsYearEntry(data, e1);
    forall k | 0 <= k < |data|
      ensures r[0].year <= data[k].year <= r[|r| - 1].year
    {
      YearEntryPresent(data, k);
      assert AnnualEntryOf(data, data[k].year) in multiset(sorted);
    }
  }

  /** Every element of an arrangement of the year entries is the entry of a year that occurs. */
  lemma ArrangedEntryIsYearEntry(data: seq<TemperatureData>, s: seq<AnnualData>, e: AnnualData)
    requires multiset(s) == multiset(YearEntries(data)) && e in s
    ensures e.year in DistinctKeys(data, YearOf) && e == AnnualEntryOf(data, e.year) && AnnualOnGrid(e)
  {
    var es := YearEntries(data);
    var years := DistinctKeys(data, YearOf);
    assert e in multiset(es);
    var i :| 0 <= i < |es| && es[i] == e;
    assert years[i] in years;
  }

  /** In an arrangement of the year entries, `find` by year succeeds exactly for the years that occur, with their entries. */
  lemma ArrangedEntryFound(data: seq<TemperatureData>, s: seq<AnnualData>, y: int)
    requires multiset(s) == multiset(YearEntries(data))
    ensures var f := FindFirst(s, AtYear(y));
      (f.Some? <==> y in DistinctKeys(data, YearOf)) &&
      (f.Some? ==> f.value == AnnualEntryOf(data, y))
  {
    var es := YearEntries(data);
    var f := FindFirst(s, AtYear(y));
    if f.Some? {
      ArrangedEntryIsYearEntry(data, s, f.value);
    }
    if y in DistinctKeys(data, YearOf) {
      var years := DistinctKeys(data, YearOf);
      var i :| 0 <= i < |years| && years[i] == y;
      assert es[i] in multiset(s);
      var k :| 0 <= k < |s| && s[k] == es[i];
      assert AtYear(y)(s[k]);
    }
  }

  /** Over a year-sorted series, `find(d => d.year > y)` gives the earliest later year. */
  lemma NextYearIsLeast(s: seq<AnnualData>, y: int, e: AnnualData)
    requires SortedByYear(s) && e in s && e.year > y
    requires FindFirst(s, AboveYear(y)).Some?
    ensures FindFirst(s, AboveYear(y)).value.year <= e.year
  {
    FindFirstIsFirst(s, AboveYear(y));
    var q :| 0 <= q < |s| && s[q] == FindFirst(s, AboveYear(y)).value
      && forall j :: 0 <= j < q ==> !AboveYear(y)(s[j]);
    var p :| 0 <= p < |s| && s[p] == e;
    assert AboveYear(y)(s[p]);
    if q < p {
      assert ByIntKey(AnnualYear)(s[q], s[p]);
      assert AnnualYear(s[q]) <= AnnualYear(s[p]);
    } else {
      assert q <= p;
    }
  }

  /** The entries of an arrangement of the year entries are all one-decimal values. */
  lemma ArrangedOnGrid(data: seq<TemperatureData>, s: seq<AnnualData>)
    requires multiset(s) == multiset(YearEntries(data))
    ensures forall k :: 0 <= k < |s| ==> AnnualOnGrid(s[k])
  {
    forall k | 0 <= k < |s|
      ensures AnnualOnGrid(s[k])
    {
      ArrangedEntryIsYearEntry(data, s, s[k]);
    }
  }

  /** In a year-sorted arrangement of the year entries, the next entry after `y` has the least later year with records. */
  lemma NextRecordedYearIsLeast(data: seq<TemperatureData>, s: seq<AnnualData>, y: int)
    requires multiset(s) == multiset(YearEntries(data)) && SortedByYear(s)
    requires FindFirst(s, AboveYear(y)).Some?
    ensures forall z :: z in DistinctKeys(data, YearOf) && z > y ==> FindFirst(s, AboveYear(y)).value.year <= z
  {
    forall z | z in DistinctKeys(data, YearOf) && z > y
      ensures FindFirst(s, AboveYear(y)).value.year <= z
    {
      ArrangedEntryFound(data, s, z);
      NextYearIsLeast(s, y, FindFirst(s, AtYear(z)).value);
    }
  }

  /** Filling a year-sorted arrangement of the year entries keeps each year with records at its own entry. */
  lemma FilledKeepsRecordedYear(data: seq<TemperatureData>, s: seq<AnnualData>, y: int)
    requires multiset(s) == multiset(YearEntries(data)) && SortedByYear(s) && |s| > 0
    requires y in DistinctKeys(data, YearOf)
    ensures s[0].year <= s[|s| - 1].year
    ensures var r := FillUpTo(s, Span(s));
      s[0].year <= y < s[0].year + |r| && r[y - s[0].year] == AnnualEntryOf(data, y)
  {
    SortedYearEnds(s);
    ArrangedEntryFound(data, s, y);
    var e := FindFirst(s, AtYear(y)).value;
    SortedYearBounds(s, e);
    FillKeepsYear(s, y);
  }

  /** `FillInterpolatesGap` for the whole span, indexed by the year itself. */
  lemma FillInterpolatesYear(sorted: seq<AnnualData>, y: int)
    requires |sorted| > 0 && sorted[0].year <= y <= sorted[|sorted| - 1].year
    requires FindFirst(sorted, AtYear(y)).None?
    ensures FindFirst(sorted, AboveYear(y)).Some?
    ensures var r := FillUpTo(sorted, Span(sorted));
      var i := y - sorted[0].year;
      var next := FindFirst(sorted, AboveYear(y)).value;
      0 < i < |r| && r[i - 1].year < next.year && r[i] == Interpolate(r[i - 1], next, y)
  {
    var i := y - sorted[0].year;
    assert sorted[0].year + i == y;
    FillInterpolatesGap(sorted, Span(sorted), i);
  }

  /**
   * Over a one-decimal year-sorted series, a filled year `y` without an entry
   * has maximum and minimum temperatures between those of the entry before it
   * and of the next year that has an entry.
   */
  lemma FillGapValuesBetween(sorted: seq<AnnualData>, y: int)
    requires |sorted| > 0 && sorted[0].year <= y <= sorted[|sorted| - 1].year
    requires FindFirst(sorted, AtYear(y)).None?
    requires forall k :: 0 <= k < |sorted| ==> AnnualOnGrid(sorted[k])
    ensures FindFirst(sorted, AboveYear(y)).Some?
    ensures var r := FillUpTo(sorted, Span(sorted));
      var i := y - sorted[0].year;
      var next := FindFirst(sorted, AboveYear(y)).value;
      && 0 < i < |r|
      && Between(r[i - 1].avg_max_temp, next.avg_max_temp, r[i].avg_max_temp)
      && Between(r[i - 1].avg_min_temp, next.avg_min_temp, r[i].avg_min_temp)
      && -0.1 <= r[i].temp_diff - (r[i].avg_max_temp - r[i].avg_min_temp) <= 0.1
  {
    FillInterpolatesYear(sorted, y);
    var r := FillUpTo(sorted, Span(sorted));
    var i := y - sorted[0].year;
    var next := FindFirst(sorted, AboveYear(y)).value;
    FillOnGrid(sorted, Span(sorted));
    assert AnnualOnGrid(r[i - 1]);
    var k :| 0 <= k < |sorted| && sorted[k] == next;
    assert AnnualOnGrid(next);
    InterpolateBetween(r[i - 1], next, y);
  }

  /** `FillKeepsRecordedYear` for the whole span, indexed by the year itself. */
  lemma FillKeepsYear(sorted: seq<AnnualData>, y: int)
    requires |sorted| > 0 && sorted[0].year <= y <= sorted[|sorted| - 1].year
    requires FindFirst(sorted, AtYear(y)).Some?
    ensures var r := FillUpTo(sorted, Span(sorted));
      0 <= y - sorted[0].year < |r| && r[y - sorted[0].year] == FindFirst(sorted, AtYear(y)).value
  {
    var i := y - sorted[0].year;
    assert sorted[0].year + i == y;
    FillKeepsRecordedYear(sorted, Span(sorted), i);
  }

  /**
   * Entry `j` of the annual series holds the entry of the first year with
   * records after entry `i`'s year, and entry `i` lies between entry `i - 1`
   * and entry `j`.
   */
  ghost predicate GapFilledFrom(data: seq<TemperatureData>, r: seq<AnnualData>, i: int, j: int)
    requires 0 < i < j < |r|
  {
    && r[j].year in DistinctKeys(data, YearOf) && r[j] == AnnualEntryOf(data, r[j].year)
    && (forall z :: z in DistinctKeys(data, YearOf) && r[i].year < z ==> r[j].year <= z)
    && Between(r[i - 1].avg_max_temp, r[j].avg_max_temp, r[i].avg_max_temp)
    && Between(r[i - 1].avg_min_temp, r[j].avg_min_temp, r[i].avg_min_temp)
    && -0.1 <= r[i].temp_diff - (r[i].avg_max_temp - r[i].avg_min_temp) <= 0.1
  }

  /**
   * In a year-sorted arrangement of the year entries, a year `y` inside the
   * span without records has no entry, and the first entry after it is the
   * entry of the least later year with records.
   */
  lemma NextRecordedEntry(data: seq<TemperatureData>, s: seq<AnnualData>, y: int)
    requires multiset(s) == multiset(YearEntries(data)) && SortedByYear(s) && |s| > 0
    requires s[0].year <= y <= s[|s| - 1].year && y !in DistinctKeys(data, YearOf)
    ensures FindFirst(s, AtYear(y)).None? && FindFirst(s, AboveYear(y)).Some?
    ensures forall k :: 0 <= k < |s| ==> AnnualOnGrid(s[k])
    ensures var next := FindFirst(s, AboveYear(y)).value;
      && next.year in DistinctKeys(data, YearOf) && next == AnnualEntryOf(data, next.year)
      && s[0].year <= next.year <= s[|s| - 1].year
      && FindFirst(s, AtYear(next.year)) == Some(next)
      && forall z :: z in DistinctKeys(data, YearOf) && y < z ==> next.year <= z
  {
    ArrangedEntryFound(data, s, y);
    ArrangedOnGrid(data, s);
    ArrangedEntryIsYearEntry(data, s, s[|s| - 1]);
    assert AboveYear(y)(s[|s| - 1]);
    var next := FindFirst(s, AboveYear(y)).value;
    ArrangedEntryIsYearEntry(data, s, next);
    ArrangedEntryFound(data, s, next.year);
    SortedYearBounds(s, next);
    NextRecordedYearIsLeast(data, s, y);
  }

  /** The fill-level half of `FilledGapBetween`, given the facts `NextRecordedEntry` supplies. */
  lemma FillGapWithNext(data: seq<TemperatureData>, s: seq<AnnualData>, i: nat, y: int, next: AnnualData)
    requires |s| > 0 && s[0].year <= y <= s[|s| - 1].year && y == s[0].year + i
    requires FindFirst(s, AtYear(y)).None? && FindFirst(s, AboveYear(y)) == Some(next)
    requires forall k :: 0 <= k < |s| ==> AnnualOnGrid(s[k])
    requires next.year in DistinctKeys(data, YearOf) && next == AnnualEntryOf(data, next.year)
    requires s[0].year <= next.year <= s[|s| - 1].year && FindFirst(s, AtYear(next.year)) == Some(next)
    requires forall z :: z in DistinctKeys(data, YearOf) && y < z ==> next.year <= z
    ensures var r := FillUpTo(s, Span(s));
      0 < i < |r| && exists j :: i < j < |r| && GapFilledFrom(data, r, i, j)
  {
    FillGapValuesBetween(s, y);
    FillKeepsYear(s, next.year);
    var r := FillUpTo(s, Span(s));
    assert y - s[0].year == i;
    var j := next.year - s[0].year;
    assert r[j] == next;
    assert r[i].year == y;
    assert GapFilledFrom(data, r, i, j);
  }

  /**
   * Filling a year-sorted arrangement of the year entries gives a year `y`
   * without records maximum and minimum temperatures between those of the
   * previous output entry and of the entry of the next year with records.
   */
  lemma FilledGapBetween(data: seq<TemperatureData>, s: seq<AnnualData>, i: nat, y: int)
    requires multiset(s) == multiset(YearEntries(data)) && SortedByYear(s) && |s| > 0
    requires s[0].year <= y <= s[|s| - 1].year && y == s[0].year + i
    requires y !in DistinctKeys(data, YearOf)
    ensures var r := FillUpTo(s, Span(s));
      0 < i < |r| && exists j :: i < j < |r| && GapFilledFrom(data, r, i, j)
  {
    NextRecordedEntry(data, s, y);
    FillGapWithNext(data, s, i, y, FindFirst(s, AboveYear(y)).value);
  }

  /**
   * For records from at least one year, the annual series is the year loop of
   * `fillMissingYears` over a year-sorted arrangement of the year entries.
   */
  lemma AnnualSeriesIsFilled(data: seq<TemperatureData>) returns (s: seq<AnnualData>)
    requires |DistinctKeys(data, YearOf)| > 0
    ensures multiset(s) == multiset(YearEntries(data)) && SortedByYear(s) && |s| > 0
    ensures s[0].year <= s[|s| - 1].year && AnnualSeries(data) == FillUpTo(s, Span(s))
  {
    var s0 := SortBy(YearEntries(data), ByIntKey(AnnualYear));
    SortedYearEntries(data);
    FillMissingYearsSpecNonEmpty(s0);
    s := SortBy(s0, ByIntKey(AnnualYear));
    ByIntKeyTotalPreorder(AnnualYear);
    SortBySorted(s0, ByIntKey(AnnualYear));
  }

  /**
   * The series `r`, whose entries are consecutive years from `r[0].year` on,
   * holds at year `y`'s place the entry computed from that year's records.
   */
  ghost predicate HoldsEntryOf(data: seq<TemperatureData>, r: seq<AnnualData>, y: int)
    requires y in DistinctKeys(data, YearOf)
  {
    |r| > 0 && r[0].year <= y < r[0].year + |r| && r[y - r[0].year] == AnnualEntryOf(data, y)
  }

  /** `FilledKeepsRecordedYear`, stated for the filled series `r` itself. */
  lemma FilledKeepsAt(data: seq<TemperatureData>, s: seq<AnnualData>, r: seq<AnnualData>, y: int)
    requires multiset(s) == multiset(YearEntries(data)) && SortedByYear(s) && |s| > 0
    requires s[0].year <= s[|s| - 1].year && r == FillUpTo(s, Span(s))
    requires y in DistinctKeys(data, YearOf)
    ensures HoldsEntryOf(data, r, y)
  {
    FilledKeepsRecordedYear(data, s, y);
    assert r[0].year == s[0].year;
    assert y - r[0].year == y - s[0].year;
  }

  /** `FilledGapBetween`, stated for position `i` of the filled series `r` itself. */
  lemma FilledGapAt(data: seq<TemperatureData>, s: seq<AnnualData>, r: seq<AnnualData>, i: nat)
    requires multiset(s) == multiset(YearEntries(data)) && SortedByYear(s) && |s| > 0
    requires s[0].year <= s[|s| - 1].year && r == FillUpTo(s, Span(s))
    requires i < |r| && r[i].year !in DistinctKeys(data, YearOf)
    ensures 0 < i && exists j :: i < j < |r| && GapFilledFrom(data, r, i, j)
  {
    assert r[i].year == s[0].year + i;
    FilledGapBetween(data, s, i, r[i].year);
  }

  /**
   * A year with records comes through gap-filling unchanged: its place in the
   * annual series holds the averages computed from its own records.
   */
  lemma AnnualSeriesKeepsRecordedYear(data: seq<TemperatureData>, y: int)
    requires y in DistinctKeys(data, YearOf)
    ensures HoldsEntryOf(data, AnnualSeries(data), y)
    ensures AnnualEntryOf(data, y) == AnnualEntry(y, Group(data, YearOf, y))
  {
    var s := AnnualSeriesIsFilled(data);
    FilledKeepsAt(data, s, AnnualSeries(data), y);
    AnnualEntryOfGroup(data, y);
  }

  /**
   * A year without records in the annual series is interpolated: it is not the
   * first year, and its maximum and minimum lie between those of the previous
   * entry and of the next year with records, whose own entry is unchanged.
   */
  lemma AnnualSeriesGapBetween(data: seq<TemperatureData>, i: nat)
    requires i < |AnnualSeries(data)| && AnnualSeries(data)[i].year !in DistinctKeys(data, YearOf)
    ensures var r := AnnualSeries(data);
      0 < i && exists j :: i < j < |r| && GapFilledFrom(data, r, i, j)
  {
    AnnualSeriesEmpty(data);
    YearEntryPresent(data, 0);
    var s := AnnualSeriesIsFilled(data);
    FilledGapAt(data, s, AnnualSeries(data), i);
  }

  // ---------------------------------------------------------------------------
  // aggregateMonthlyData

  const MonthNames: seq<string> := ["1月", "2月", "3月", "4月", "5月", "6月", "7月", "8月", "9月", "10月", "11月", "12月"]

  /** `monthNames[month - 1]`: `undefined` outside 1..12. */
  function MonthName(month: int): (r: Option<string>)
    ensures r.Some? <==> 1 <= month <= 12
  {
    if 1 <= month <= 12 then Some(MonthNames[month - 1]) else None
  }

  /** The name of month `m` is its number followed by 月. */
  lemma MonthNameText(m: int)
    requires 1 <= m <= 12
    ensures MonthName(m) == Some(NatToString(m) + "月")
  {
    assert NatToString(10) == "10" && NatToString(11) == "11" && NatToString(12) == "12";
    assert MonthNames[m - 1] == NatToString(m) + "月";
  }

  function MonthlyMonth(e: MonthlyData): int { e.month }

  /** The entry of a month with records: rounded means and the rounded mean difference. */
  function MonthlyEntry(month: int, g: seq<TemperatureData>): (e: MonthlyData)
    requires |g| > 0
    ensures e.month == month && e.month_name == MonthName(month)
    ensures e.avg_max_temp == Round1(AvgMax(g)) && e.avg_min_temp == Round1(AvgMin(g))
    ensures e.temp_diff == Round1(AvgMax(g) - AvgMin(g))
    ensures -0.1 <= e.temp_diff - (e.avg_max_temp - e.avg_min_temp) <= 0.1
  {
    Round1DiffWithin(AvgMax(g), AvgMin(g));
    MonthlyData(month, MonthName(month), Round1(AvgMax(g)), Round1(AvgMin(g)), Round1(AvgMax(g) - AvgMin(g)))
  }

  /** The entry of a month that occurs in `data`, averaged over all its records. */
  function MonthlyEntryOf(data: seq<TemperatureData>, m: int): (e: MonthlyData)
    requires m in DistinctKeys(data, MonthOf)
    ensures e.month == m
  {
    GroupNonEmpty(data, MonthOf, m);
    MonthlyEntry(m, Group(data, MonthOf, m))
  }

  /** The entries in the month `Map`'s insertion order. */
  function MonthEntries(data: seq<TemperatureData>): (es: seq<MonthlyData>)
    ensures var months := DistinctKeys(data, MonthOf);
      |es| == |months| && forall i :: 0 <= i < |es| ==> es[i] == MonthlyEntryOf(data, months[i])
  {
    var months := DistinctKeys(data, MonthOf);
    seq(|months|, i requires 0 <= i < |months| => MonthlyEntryOf(data, months[i]))
  }

  /** What `aggregateMonthlyData` returns: the month entries sorted by month. */
  function MonthlySeries(data: seq<TemperatureData>): seq<MonthlyData>
  {
    SortBy(MonthEntries(data), ByIntKey(MonthlyMonth))
  }

  /** `aggregateMonthlyData`: groups by month in a `Map`, averages each group, sorts by month. */
  method AggregateMonthlyData(data: seq<TemperatureData>) returns (result: seq<MonthlyData>)
    ensures result == MonthlySeries(data)
  {
    var months, monthlyData := GroupBy(data, MonthOf);
    var entries: seq<MonthlyData> := [];
    ghost var all := MonthEntries(data);
    for i := 0 to |months|
      invariant entries == all[..i]
    {
      var temps := monthlyData[months[i]];
      assert temps == Group(data, MonthOf, months[i]);
      GroupNonEmpty(data, MonthOf, months[i]);
      var entry := MonthlyEntry(months[i], temps);
      assert entry == all[i];
      TakeSnoc(all, i);
      entries := entries + [entry];
    }
    assert entries == all;
    result := SortBy(entries, ByIntKey(MonthlyMonth));
  }

  /** Entries built over distinct keys have distinct months. */
  lemma MonthEntriesDistinct(data: seq<TemperatureData>)
    ensures KeysDistinct(MonthEntries(data), MonthlyMonth)
  {
    var es := MonthEntries(data);
    var months := DistinctKeys(data, MonthOf);
    forall i, j | 0 <= i < j < |es|
      ensures MonthlyMonth(es[i]) != MonthlyMonth(es[j])
    {
      assert es[i].month == months[i] && es[j].month == months[j];
    }
  }

  /** An entry among the month entries belongs to a month that occurs, and averages that month. */
  lemma MonthEntryIsMonthEntryOf(data: seq<TemperatureData>, e: MonthlyData)
    requires e in multiset(MonthEntries(data))
    ensures e.month in DistinctKeys(data, MonthOf) && e == MonthlyEntryOf(data, e.month)
  {
    var es := MonthEntries(data);
    var months := DistinctKeys(data, MonthOf);
    var i :| 0 <= i < |es| && es[i] == e;
    assert months[i] in months;
  }

  /** The month of every record has its entry among the month entries. */
  lemma MonthEntryPresent(data: seq<TemperatureData>, k: int)
    requires 0 <= k < |data|
    ensures exists e :: e in multiset(MonthEntries(data)) && e.month == data[k].month
  {
    var es := MonthEntries(data);
    var months := DistinctKeys(data, MonthOf);
    var m := data[k].month;
    assert MonthOf(data[k]) == m;
    assert m in months;
    var i :| 0 <= i < |months| && months[i] == m;
    assert es[i] in multiset(es);
  }

  /** Any arrangement of the month entries holds only entries of months that occur. */
  lemma MonthEntriesArranged(data: seq<TemperatureData>, r: seq<MonthlyData>)
    requires multiset(r) == multiset(MonthEntries(data))
    ensures forall e :: e in r ==> e.month in DistinctKeys(data, MonthOf) && e == MonthlyEntryOf(data, e.month)
  {
    forall e | e in r
      ensures e.month in DistinctKeys(data, MonthOf) && e == MonthlyEntryOf(data, e.month)
    {
      assert e in multiset(r);
      MonthEntryIsMonthEntryOf(data, e);
    }
  }

  /** Any arrangement of the month entries has an entry for the month of every record. */
  lemma MonthEntriesCover(data: seq<TemperatureData>, r: seq<MonthlyData>)
    requires multiset(r) == multiset(MonthEntries(data))
    ensures forall k :: 0 <= k < |data| ==> exists e :: e in r && e.month == data[k].month
  {
    forall k | 0 <= k < |data|
      ensures exists e :: e in r && e.month == data[k].month
    {
      MonthEntryPresent(data, k);
      var e :| e in multiset(MonthEntries(data)) && e.month == data[k].month;
      assert e in multiset(r);
    }
  }

  /** The months of a month-sorted series strictly increase. */
  lemma MonthlySeriesAscending(data: seq<TemperatureData>)
    ensures var r := MonthlySeries(data);
      forall i, j :: 0 <= i < j < |r| ==> r[i].month < r[j].month
  {
    MonthEntriesDistinct(data);
    SortDistinctKeysStrict(MonthEntries(data), MonthlyMonth);
    MonthsFromKeys(MonthlySeries(data));
  }

  lemma MonthsFromKeys(r: seq<MonthlyData>)
    requires KeysIncreasing(r, MonthlyMonth)
    ensures forall i, j :: 0 <= i < j < |r| ==> r[i].month < r[j].month
  {
    forall i, j | 0 <= i < j < |r|
      ensures r[i].month < r[j].month
    {
      assert MonthlyMonth(r[i]) < MonthlyMonth(r[j]);
    }
  }

  /**
   * The monthly series: strictly ascending months; a month has an entry
   * exactly when some record falls in it, and that entry averages all of
   * the month's records, named `monthNames[month - 1]`.
   */
  lemma MonthlySeriesShape(data: seq<TemperatureData>)
    ensures var r := MonthlySeries(data);
      && |r| == |DistinctKeys(data, MonthOf)|
      && (forall i, j :: 0 <= i < j < |r| ==> r[i].month < r[j].month)
      && (forall e :: e in r ==> e.month in DistinctKeys(data, MonthOf) && e == MonthlyEntryOf(data, e.month))
      && (forall k :: 0 <= k < |data| ==> exists e :: e in r && e.month == data[k].month)
  {
    MonthlySeriesAscending(data);
    MonthEntriesArranged(data, MonthlySeries(data));
    MonthEntriesCover(data, MonthlySeries(data));
  }

  /** `getMonthlyDataForYear`: the monthly series of one year's records. */
  method GetMonthlyDataForYear(data: seq<TemperatureData>, year: int) returns (result: seq<MonthlyData>)
    ensures result == MonthlySeries(Filter(data, InYear(year)))
  {
    var yearData := Filter(data, InYear(year));
    result := AggregateMonthlyData(yearData);
  }

  /** Every entry of one year's monthly series averages only records of that year. */
  lemma MonthlyDataForYearOnlyThatYear(data: seq<TemperatureData>, year: int, e: MonthlyData)
    requires e in MonthlySeries(Filter(data, InYear(year)))
    ensures var yd := Filter(data, InYear(year));
      e.month in DistinctKeys(yd, MonthOf) &&
      forall x :: x in Group(yd, MonthOf, e.month) ==> x in data && x.year == year && x.month == e.month
  {
    var yd := Filter(data, InYear(year));
    MonthlySeriesShape(yd);
    FilterMembers(data, InYear(year));
    GroupMembers(yd, MonthOf, e.month);
  }

  // ---------------------------------------------------------------------------
  // aggregateMonthlyYearlyData

  function MonthlyYearlyYear(e: MonthlyYearlyData): int { e.year }

  /** The entry of one year's records of the target month. */
  function MonthlyYearlyEntry(year: int, month: int, g: seq<TemperatureData>): (e: MonthlyYearlyData)
    requires |g| > 0
    ensures e.year == year && e.month == month && e.month_name == MonthName(month)
    ensures e.avg_max_temp == Round1(AvgMax(g)) && e.avg_min_temp == Round1(AvgMin(g))
    ensures e.temp_diff == Round1(AvgMax(g) - AvgMin(g))
  {
    MonthlyYearlyData(year, month, MonthName(month), Round1(AvgMax(g)), Round1(AvgMin(g)), Round1(AvgMax(g) - AvgMin(g)))
  }

  /** The records of the target month, in input order. */
  function MonthRecords(data: seq<TemperatureData>, month: int): seq<TemperatureData>
  {
    Filter(data, InMonth(month))
  }

  /** The entry of a year that has records in the target month, averaged over all of them. */
  function MonthlyYearlyEntryOf(data: seq<TemperatureData>, month: int, y: int): (e: MonthlyYearlyData)
    requires y in DistinctKeys(MonthRecords(data, month), YearOf)
    ensures e.year == y && e.month == month && e.month_name == MonthName(month)
  {
    GroupNonEmpty(MonthRecords(data, month), YearOf, y);
    MonthlyYearlyEntry(y, month, Group(MonthRecords(data, month), YearOf, y))
  }

  /** The entries in the year `Map`'s insertion order. */
  function MonthYearEntries(data: seq<TemperatureData>, month: int): (es: seq<MonthlyYearlyData>)
    ensures var years := DistinctKeys(MonthRecords(data, month), YearOf);
      |es| == |years| && forall i :: 0 <= i < |es| ==> es[i] == MonthlyYearlyEntryOf(data, month, years[i])
  {
    var years := DistinctKeys(MonthRecords(data, month), YearOf);
    seq(|years|, i requires 0 <= i < |years| => MonthlyYearlyEntryOf(data, month, years[i]))
  }

  /** What `aggregateMonthlyYearlyData` returns: the year entries of the month, sorted by year. */
  function MonthlyYearlySeries(data: seq<TemperatureData>, month: int): seq<MonthlyYearlyData>
  {
    SortBy(MonthYearEntries(data, month), ByIntKey(MonthlyYearlyYear))
  }

  /**
   * `aggregateMonthlyYearlyData`: keeps the records of the target month, groups
   * them by year in a `Map`, averages each group and sorts by year.
   */
  method AggregateMonthlyYearlyData(data: seq<TemperatureData>, targetMonth: int) returns (result: seq<MonthlyYearlyData>)
    ensures result == MonthlyYearlySeries(data, targetMonth)
  {
    var monthData := Filter(data, InMonth(targetMonth));
    var years, yearlyData := GroupBy(monthData, YearOf);
    var entries: seq<MonthlyYearlyData> := [];
    ghost var all := MonthYearEntries(data, targetMonth);
    for i := 0 to |years|
      invariant entries == all[..i]
    {
      var temps := yearlyData[years[i]];
      assert temps == Group(monthData, YearOf, years[i]);
      GroupNonEmpty(monthData, YearOf, years[i]);
      var entry := MonthlyYearlyEntry(years[i], targetMonth, temps);
      assert entry == all[i];
      TakeSnoc(all, i);
      entries := entries + [entry];
    }
    assert entries == all;
    result := SortBy(entries, ByIntKey(MonthlyYearlyYear));
  }

  /** Entries built over distinct years have distinct years. */
  lemma MonthYearEntriesDistinct(data: seq<TemperatureData>, month: int)
    ensures KeysDistinct(MonthYearEntries(data, month), MonthlyYearlyYear)
  {
    var es := MonthYearEntries(data, month);
    var years := DistinctKeys(MonthRecords(data, month), YearOf);
    forall i, j | 0 <= i < j < |es|
      ensures MonthlyYearlyYear(es[i]) != MonthlyYearlyYear(es[j])
    {
      assert es[i].year == years[i] && es[j].year == years[j];
    }
  }

  lemma YearsFromKeys(r: seq<MonthlyYearlyData>)
    requires KeysIncreasing(r, MonthlyYearlyYear)
    ensures forall i, j :: 0 <= i < j < |r| ==> r[i].year < r[j].year
  {
    forall i, j | 0 <= i < j < |r|
      ensures r[i].year < r[j].year
    {
      assert MonthlyYearlyYear(r[i]) < MonthlyYearlyYear(r[j]);
    }
  }

  /** The years of the month-by-year series strictly increase. */
  lemma MonthlyYearlySeriesAscending(data: seq<TemperatureData>, month: int)
    ensures var r := MonthlyYearlySeries(data, month);
      forall i, j :: 0 <= i < j < |r| ==> r[i].year < r[j].year
  {
    MonthYearEntriesDistinct(data, month);
    SortDistinctKeysStrict(MonthYearEntries(data, month), MonthlyYearlyYear);
    YearsFromKeys(MonthlyYearlySeries(data, month));
  }

  lemma MonthYearEntryIsEntryOf(data: seq<TemperatureData>, month: int, e: MonthlyYearlyData)
    requires e in multiset(MonthYearEntries(data, month))
    ensures e.year in DistinctKeys(MonthRecords(data, month), YearOf)
    ensures e == MonthlyYearlyEntryOf(data, month, e.year)
  {
    var es := MonthYearEntries(data, month);
    var years := DistinctKeys(MonthRecords(data, month), YearOf);
    var i :| 0 <= i < |es| && es[i] == e;
    assert years[i] in years;
  }

  /** Any arrangement of the year entries holds only entries of the target month, one per year with records. */
  lemma MonthYearEntriesArranged(data: seq<TemperatureData>, month: int, r: seq<MonthlyYearlyData>)
    requires multiset(r) == multiset(MonthYearEntries(data, month))
    ensures forall e :: e in r ==>
      && e.month == month && e.month_name == MonthName(month)
      && e.year in DistinctKeys(MonthRecords(data, month), YearOf)
      && e == MonthlyYearlyEntryOf(data, month, e.year)
  {
    forall e | e in r
      ensures e.month == month && e.month_name == MonthName(month)
      ensures e.year in DistinctKeys(MonthRecords(data, month), YearOf)
      ensures e == MonthlyYearlyEntryOf(data, month, e.year)
    {
      assert e in multiset(r);
      MonthYearEntryIsEntryOf(data, month, e);
    }
  }

  /** The year of a record of the target month is among the grouped years. */
  lemma MonthRecordYear(data: seq<TemperatureData>, month: int, k: int)
    requires 0 <= k < |data| && data[k].month == month
    ensures data[k].year in DistinctKeys(MonthRecords(data, month), YearOf)
  {
    var md := MonthRecords(data, month);
    FilterMembers(data, InMonth(month));
    assert data[k] in md;
    var j :| 0 <= j < |md| && md[j] == data[k];
    assert YearOf(md[j]) == data[k].year;
  }

  /** A record of the target month has its year's entry among the year entries. */
  lemma MonthYearEntryPresent(data: seq<TemperatureData>, month: int, k: int)
    requires 0 <= k < |data| && data[k].month == month
    ensures exists e :: e in multiset(MonthYearEntries(data, month)) && e.year == data[k].year
  {
    var es := MonthYearEntries(data, month);
    var years := DistinctKeys(MonthRecords(data, month), YearOf);
    MonthRecordYear(data, month, k);
    var i :| 0 <= i < |years| && years[i] == data[k].year;
    assert es[i] in multiset(es);
  }

  /** Any arrangement of the year entries has an entry for every year with a record in the target month. */
  lemma MonthYearEntriesCover(data: seq<TemperatureData>, month: int, r: seq<MonthlyYearlyData>)
    requires multiset(r) == multiset(MonthYearEntries(data, month))
    ensures forall k :: 0 <= k < |data| && data[k].month == month ==>
      exists e :: e in r && e.year == data[k].year
  {
    forall k | 0 <= k < |data| && data[k].month == month
      ensures exists e :: e in r && e.year == data[k].year
    {
      MonthYearEntryPresent(data, month, k);
      var e :| e in multiset(MonthYearEntries(data, month)) && e.year == data[k].year;
      assert e in multiset(r);
    }
  }

  /**
   * The month-by-year series: every entry is of the target month and named
   * after it; years strictly ascend; there is an entry exactly for each year
   * with a record in that month, averaging all of that year's records of the month.
   */
  lemma MonthlyYearlySeriesShape(data: seq<TemperatureData>, month: int)
    ensures var r := MonthlyYearlySeries(data, month);
      && |r| == |DistinctKeys(MonthRecords(data, month), YearOf)|
      && (forall i, j :: 0 <= i < j < |r| ==> r[i].year < r[j].year)
      && (forall e :: e in r ==>
            && e.month == month && e.month_name == MonthName(month)
            && e.year in DistinctKeys(MonthRecords(data, month), YearOf)
            && e == MonthlyYearlyEntryOf(data, month, e.year))
      && (forall k :: 0 <= k < |data| && data[k].month == month ==> exists e :: e in r && e.year == data[k].year)
  {
    MonthlyYearlySeriesAscending(data, month);
    MonthYearEntriesArranged(data, month, MonthlyYearlySeries(data, month));
    MonthYearEntriesCover(data, month, MonthlyYearlySeries(data, month));
  }

  /** The records a year's entry averages are exactly that year's records of the target month. */
  lemma MonthlyYearlyGroupMembers(data: seq<TemperatureData>, month: int, y: int)
    ensures forall x :: x in Group(MonthRecords(data, month), YearOf, y) <==> x in data && x.month == month && x.year == y
  {
    FilterMembers(data, InMonth(month));
    GroupMembers(MonthRecords(data, month), YearOf, y);
  }
}
