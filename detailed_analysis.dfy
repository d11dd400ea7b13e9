/**
 * detailed_analysis.py: a Python re-run of the site's annual aggregation
 * (`simulate_aggregateAnnualData`) followed by quality checks on its result:
 * years with fewer than 300 records, years missing from the series and from
 * 1936-2024, implausible annual means, and the mean of the first and the last
 * ten years' maxima.
 *
 * The script takes `max_temp` and `min_temp` to be numbers (a `null` makes
 * `sum` raise), so the records here are the dataset's `TemperatureData`.
 */
module DetailedAnalysis {
  import opened Numeric
  import opened Seqs
  import opened Sorting
  import opened TemperatureTypes
  import opened DataProcessor
  import opened DataMerge

  /** An entry of `annual_result`. */
  datatype YearSummary = YearSummary(year: int, avgMax: real, avgMin: real, tempDiff: real, dataCount: nat)

  function SummaryYear(s: YearSummary): int { s.year }

  /**
   * The entry of a year with records: the means of its maxima and minima and
   * of their difference, each rounded to one decimal by Python's `round`
   * (half to even), and its number of records.
   */
  function SummaryOf(year: int, g: seq<TemperatureData>): YearSummary
    requires |g| > 0
  {
    var avgMax, avgMin := Sum(MaxTemps(g)) / |g| as real, Sum(MinTemps(g)) / |g| as real;
    YearSummary(year, PyRound1(avgMax), PyRound1(avgMin), PyRound1(avgMax - avgMin), |g|)
  }

  /** The records' years, each once. */
  function DataYears(data: seq<TemperatureData>): seq<int>
  {
    DistinctKeys(data, YearOf)
  }

  /** An entry summarising its year's records. */
  function SummarisesYear(data: seq<TemperatureData>): YearSummary -> bool
  {
    (s: YearSummary) => |Group(data, YearOf, s.year)| > 0 && s == SummaryOf(s.year, Group(data, YearOf, s.year))
  }

  /** The result describes the data: one entry per year of the data, each summarising that year's records. */
  ghost predicate Summarizes(data: seq<TemperatureData>, result: seq<YearSummary>)
  {
    && KeysDistinct(result, SummaryYear)
    && (forall y :: y in DataYears(data) <==> exists i :: 0 <= i < |result| && SummaryYear(result[i]) == y)
    && forall i :: 0 <= i < |result| ==> SummarisesYear(data)(result[i])
  }

  /**
   * `simulate_aggregateAnnualData`: the records grouped by year in a dict,
   * one entry per year in insertion order, then `sorted` by year.
   */
  method SimulateAggregateAnnualData(data: seq<TemperatureData>) returns (result: seq<YearSummary>)
    ensures Summarizes(data, result)
    ensures KeysIncreasing(result, SummaryYear)
  {
    var order, yearlyData := GroupBy(data, YearOf);
    var unsorted := YearEntries(data, order, yearlyData);
    result := SortByYear(unsorted);
    SortedSummaries(data, order, unsorted, result);
  }

  /** The `for year, temps in yearly_data.items()` loop: one entry per year, in the dict's insertion order. */
  method YearEntries(data: seq<TemperatureData>, order: seq<int>, yearlyData: map<int, seq<TemperatureData>>)
    returns (unsorted: seq<YearSummary>)
    requires order == DataYears(data)
    requires forall k :: k in order ==> k in yearlyData && yearlyData[k] == Group(data, YearOf, k)
    ensures |unsorted| == |order|
    ensures forall j :: 0 <= j < |order| ==> SummaryYear(unsorted[j]) == order[j]
    ensures forall j :: 0 <= j < |order| ==> SummarisesYear(data)(unsorted[j])
  {
    unsorted := [];
    for k := 0 to |order|
      invariant |unsorted| == k
      invariant forall j :: 0 <= j < k ==> SummaryYear(unsorted[j]) == order[j]
      invariant forall j :: 0 <= j < k ==> SummarisesYear(data)(unsorted[j])
    {
      var year := order[k];
      var temps := yearlyData[year];
      var entry := YearEntry(data, year, temps);
      unsorted := unsorted + [entry];
    }
  }

  /** The body of the second loop of `simulate_aggregateAnnualData` for one year. */
  method YearEntry(data: seq<TemperatureData>, year: int, temps: seq<TemperatureData>) returns (entry: YearSummary)
    requires year in DataYears(data) && temps == Group(data, YearOf, year)
    ensures entry.year == year && SummarisesYear(data)(entry)
  {
    GroupNonEmpty(data, YearOf, year);
    var avgMaxTemp := Sum(MaxTemps(temps)) / |MaxTemps(temps)| as real;
    var avgMinTemp := Sum(MinTemps(temps)) / |MinTemps(temps)| as real;
    entry := YearSummary(year, PyRound1(avgMaxTemp), PyRound1(avgMinTemp), PyRound1(avgMaxTemp - avgMinTemp), |MaxTemps(temps)|);
  }

  /** `sorted(result, key=lambda x: x['year'])`. */
  method SortByYear(entries: seq<YearSummary>) returns (sorted: seq<YearSummary>)
    ensures multiset(sorted) == multiset(entries)
    ensures Sorted(sorted, ByIntKey(SummaryYear))
  {
    sorted := SortBy(entries, ByIntKey(SummaryYear));
    ByIntKeyTotalPreorder(SummaryYear);
    SortBySorted(entries, ByIntKey(SummaryYear));
  }

  /** Sorting the per-year entries by year keeps them and puts them in strictly ascending year order. */
  lemma SortedSummaries(data: seq<TemperatureData>, order: seq<int>, unsorted: seq<YearSummary>, result: seq<YearSummary>)
    requires order == DataYears(data)
    requires |unsorted| == |order|
    requires forall j :: 0 <= j < |order| ==> SummaryYear(unsorted[j]) == order[j]
    requires forall j :: 0 <= j < |order| ==> SummarisesYear(data)(unsorted[j])
    requires multiset(result) == multiset(unsorted)
    requires Sorted(result, ByIntKey(SummaryYear))
    ensures Summarizes(data, result)
    ensures KeysIncreasing(result, SummaryYear)
  {
    assert KeysDistinct(unsorted, SummaryYear) by {
      assert NoDup(order);
    }
    KeysDistinctPermutation(unsorted, result, SummaryYear);
    SortedStrictly(result, SummaryYear);
    PermutationKeepsAll(unsorted, result, SummarisesYear(data));
    forall y
      ensures y in DataYears(data) <==> exists i :: 0 <= i < |result| && SummaryYear(result[i]) == y
    {
      PermutationKeepsKeys(unsorted, result, SummaryYear, y);
      if y in order {
        var j :| 0 <= j < |order| && order[j] == y;
        assert SummaryYear(unsorted[j]) == y;
      }
    }
  }

  /**
   * Off the half-way points, the re-run agrees with the site's `round1`
   * entry (data-processor.ts rounds half up).
   */
  lemma SimulationAgreesOffTies(year: int, g: seq<TemperatureData>)
    requires |g| > 0
    requires (10.0 * AvgMax(g) - 0.5).Floor as real != 10.0 * AvgMax(g) - 0.5
    requires (10.0 * AvgMin(g) - 0.5).Floor as real != 10.0 * AvgMin(g) - 0.5
    requires (10.0 * (AvgMax(g) - AvgMin(g)) - 0.5).Floor as real != 10.0 * (AvgMax(g) - AvgMin(g)) - 0.5
    ensures var s, e := SummaryOf(year, g), AnnualEntry(year, g);
      s.year == e.year && s.avgMax == e.avg_max_temp && s.avgMin == e.avg_min_temp && s.tempDiff == e.temp_diff
  {
    assert AvgMax(g) == Sum(MaxTemps(g)) / |g| as real && AvgMin(g) == Sum(MinTemps(g)) / |g| as real;
    PyRound1AgreesOffTies(AvgMax(g));
    PyRound1AgreesOffTies(AvgMin(g));
    PyRound1AgreesOffTies(AvgMax(g) - AvgMin(g));
  }

  /** On a half-way mean the two disagree: maxima 0.2 and 0.3 average 0.25, which Python rounds to 0.2 and `round1` to 0.3. */
  lemma SimulationDiffersOnTie()
    ensures var g := [TemperatureData("2000/1/1", 2000, 1, 1, 0.2, 0.0), TemperatureData("2000/1/2", 2000, 1, 2, 0.3, 0.0)];
      SummaryOf(2000, g).avgMax == 0.2 && AnnualEntry(2000, g).avg_max_temp == 0.3
  {
    var g := [TemperatureData("2000/1/1", 2000, 1, 1, 0.2, 0.0), TemperatureData("2000/1/2", 2000, 1, 2, 0.3, 0.0)];
    var m := MaxTemps(g);
    assert m == [0.2, 0.3];
    assert m[..1] == [0.2] && m[..1][..0] == [];
    assert Sum(m[..1]) == 0.2;
    assert Sum(m) == 0.5;
    assert Sum(m) / 2.0 == 0.25;
    assert AvgMax(g) == 0.25;
    PyRound1DiffersOnTie();
  }

  // ---------------------------------------------------------------------------
  // Years with fewer than 300 records

  function IsProblem(): YearSummary -> bool
  {
    (s: YearSummary) => s.dataCount < 300
  }

  /** The years of a list of entries. */
  function YearsOf(entries: seq<YearSummary>): (years: seq<int>)
    ensures |years| == |entries| && forall i :: 0 <= i < |entries| ==> years[i] == entries[i].year
  {
    MapSeq(entries, SummaryYear)
  }

  /** The `problem_years` loop: the year of every entry with fewer than 300 records, in result order. */
  method ProblemYears(annualResult: seq<YearSummary>) returns (problemYears: seq<int>)
    ensures problemYears == YearsOf(Filter(annualResult, IsProblem()))
  {
    problemYears := [];
    for i := 0 to |annualResult|
      invariant problemYears == YearsOf(Filter(annualResult[..i], IsProblem()))
    {
      FilterPrefixStep(annualResult, IsProblem(), i);
      var yearData := annualResult[i];
      var year := yearData.year;
      var count := yearData.dataCount;
      var isProblem := count < 300;
      if isProblem {
        problemYears := problemYears + [year];
      }
    }
    assert annualResult[..|annualResult|] == annualResult;
  }

  /**
   * A year is a problem year exactly when its entry has fewer than 300
   * records; on a year-sorted result the problem years ascend.
   */
  lemma ProblemYearsShape(annualResult: seq<YearSummary>)
    ensures forall y :: y in YearsOf(Filter(annualResult, IsProblem())) <==>
      exists s :: s in annualResult && s.year == y && s.dataCount < 300
    ensures KeysIncreasing(annualResult, SummaryYear) ==>
      forall i, j :: 0 <= i < j < |YearsOf(Filter(annualResult, IsProblem()))| ==>
        YearsOf(Filter(annualResult, IsProblem()))[i] < YearsOf(Filter(annualResult, IsProblem()))[j]
  {
    var f := Filter(annualResult, IsProblem());
    FilterMembers(annualResult, IsProblem());
    forall i | 0 <= i < |f|
      ensures f[i] in annualResult && f[i].year == YearsOf(f)[i] && f[i].dataCount < 300
    {
      assert f[i] in f;
    }
    forall y | exists s :: s in annualResult && s.year == y && s.dataCount < 300
      ensures y in YearsOf(f)
    {
      var s :| s in annualResult && s.year == y && s.dataCount < 300;
      assert s in f;
      var i :| 0 <= i < |f| && f[i] == s;
      assert YearsOf(f)[i] == y;
    }
    if KeysIncreasing(annualResult, SummaryYear) {
      FilterKeepsIncreasing(annualResult, IsProblem());
    }
  }

  /** A sub-sequence keeps strictly increasing years. */
  lemma {:induction false} FilterKeepsIncreasing(s: seq<YearSummary>, p: YearSummary -> bool)
    requires KeysIncreasing(s, SummaryYear)
    ensures KeysIncreasing(Filter(s, p), SummaryYear)
    ensures forall x :: x in Filter(s, p) ==> x in s
  {
    if |s| > 0 {
      var init := s[..|s| - 1];
      var x := s[|s| - 1];
      assert KeysIncreasing(init, SummaryYear) by {
        forall i, j | 0 <= i < j < |init|
          ensures SummaryYear(init[i]) < SummaryYear(init[j])
        {
          assert init[i] == s[i] && init[j] == s[j];
        }
      }
      FilterKeepsIncreasing(init, p);
      var f := Filter(init, p);
      if p(x) {
        assert Filter(s, p) == f + [x];
        forall k | 0 <= k < |f|
          ensures SummaryYear(f[k]) < SummaryYear(x)
        {
          assert f[k] in f;
          var i :| 0 <= i < |init| && init[i] == f[k];
          assert s[i] == f[k];
        }
      } else {
        assert Filter(s, p) == f;
      }
    }
  }

  // ---------------------------------------------------------------------------
  // Years missing from the series

  /** `sorted(set(range(lo, hi + 1)) - set(present))`. */
  function RangeWithout(lo: int, hi: int, present: seq<int>): (missing: seq<int>)
    ensures forall y :: y in missing <==> lo <= y <= hi && y !in present
    ensures forall i, j :: 0 <= i < j < |missing| ==> missing[i] < missing[j]
    ensures forall i :: 0 <= i < |missing| ==> missing[i] <= hi
    decreases hi - lo
  {
    if hi < lo then []
    else RangeWithout(lo, hi - 1, present) + (if hi in present then [] else [hi])
  }

  /** `missing_years`: the years between the first and the last year of the series that have no entry. */
  function MissingYears(years: seq<int>): seq<int>
    requires |years| > 0
  {
    RangeWithout(MinYear(years), MaxYear(years), years)
  }

  /** A year is missing exactly when it lies between the series' extremes and has no entry; the list ascends. */
  lemma MissingYearsShape(years: seq<int>)
    requires |years| > 0
    ensures forall y :: y in MissingYears(years) <==>
      (exists i :: 0 <= i < |years| && years[i] < y) && (exists i :: 0 <= i < |years| && y < years[i]) && y !in years
    ensures forall i, j :: 0 <= i < j < |MissingYears(years)| ==> MissingYears(years)[i] < MissingYears(years)[j]
  {
    var lo, hi := MinYear(years), MaxYear(years);
    forall y
      ensures y in MissingYears(years) <==>
        (exists i :: 0 <= i < |years| && years[i] < y) && (exists i :: 0 <= i < |years| && y < years[i]) && y !in years
    {
      var a :| 0 <= a < |years| && years[a] == lo;
      var b :| 0 <= b < |years| && years[b] == hi;
      if y in MissingYears(years) {
        assert years[a] < y && y < years[b];
      }
    }
  }

  /**
   * `target_missing`: the years of 1936-2024 without an entry. Removing only
   * the years inside the target range first makes no difference.
   */
  function TargetMissing(years: seq<int>): (missing: seq<int>)
    ensures forall y :: y in missing <==> 1936 <= y <= 2024 && y !in years
  {
    RangeWithout(1936, 2024, years)
  }

  // ---------------------------------------------------------------------------
  // Implausible annual means

  /** `avg_max_temp > 35 or avg_max_temp < 15`. */
  predicate MaxImplausible(s: YearSummary)
  {
    s.avgMax > 35.0 || s.avgMax < 15.0
  }

  /** `avg_min_temp > 25 or avg_min_temp < 0`. */
  predicate MinImplausible(s: YearSummary)
  {
    s.avgMin > 25.0 || s.avgMin < 0.0
  }

  /** The entries appended in one pass of the loop: once per test that fires. */
  function ExtremesOf(entries: seq<YearSummary>): seq<YearSummary>
  {
    if |entries| == 0 then []
    else
      var s := entries[|entries| - 1];
      ExtremesOf(entries[..|entries| - 1]) + (if MaxImplausible(s) then [s] else []) + (if MinImplausible(s) then [s] else [])
  }

  /** The `extreme_temps` loop. */
  method ExtremeTemps(annualResult: seq<YearSummary>) returns (extremeTemps: seq<YearSummary>)
    ensures extremeTemps == ExtremesOf(annualResult)
  {
    extremeTemps := [];
    for i := 0 to |annualResult|
      invariant extremeTemps == ExtremesOf(annualResult[..i])
    {
      assert annualResult[..i + 1][..i] == annualResult[..i];
      var yearData := annualResult[i];
      ghost var before := extremeTemps;
      if yearData.avgMax > 35.0 || yearData.avgMax < 15.0 {
        extremeTemps := extremeTemps + [yearData];
      }
      ghost var middle := extremeTemps;
      if yearData.avgMin > 25.0 || yearData.avgMin < 0.0 {
        extremeTemps := extremeTemps + [yearData];
      }
      assert extremeTemps == before + (if MaxImplausible(yearData) then [yearData] else [])
                                    + (if MinImplausible(yearData) then [yearData] else []);
    }
    assert annualResult[..|annualResult|] == annualResult;
  }

  function MaxTest(): YearSummary -> bool { (s: YearSummary) => MaxImplausible(s) }
  function MinTest(): YearSummary -> bool { (s: YearSummary) => MinImplausible(s) }

  /**
   * The list holds every entry that fails a test and nothing else, and its
   * length is the number of failing maxima plus the number of failing minima,
   * so an entry failing both is counted twice.
   */
  lemma {:induction false} ExtremesShape(entries: seq<YearSummary>)
    ensures forall s :: s in ExtremesOf(entries) <==> s in entries && (MaxImplausible(s) || MinImplausible(s))
    ensures |ExtremesOf(entries)| == |Filter(entries, MaxTest())| + |Filter(entries, MinTest())|
  {
    if |entries| > 0 {
      var init := entries[..|entries| - 1];
      var s := entries[|entries| - 1];
      ExtremesShape(init);
      assert entries == init + [s];
      assert MaxTest()(s) == MaxImplausible(s);
      assert MinTest()(s) == MinImplausible(s);
    }
  }

  /** A year whose means both look wrong appears twice in `extreme_temps`. */
  lemma ExtremeListedTwice()
    ensures var s := YearSummary(2000, 40.0, 30.0, 10.0, 365); ExtremesOf([s]) == [s, s]
  {
    var s := YearSummary(2000, 40.0, 30.0, 10.0, 365);
    assert [s][..0] == [];
  }

  // ---------------------------------------------------------------------------
  // The 1936-2024 statistics

  function InTargetRange(): YearSummary -> bool
  {
    (s: YearSummary) => 1936 <= s.year <= 2024
  }

  /** `filtered_data`: the entries of 1936-2024, in result order. */
  function FilteredSummaries(annualResult: seq<YearSummary>): seq<YearSummary>
  {
    Filter(annualResult, InTargetRange())
  }

  function AvgMaxValues(entries: seq<YearSummary>): seq<real>
  {
    MapSeq(entries, (s: YearSummary) => s.avgMax)
  }

  /** `entries[-n:]`: the last `n`, or all of them when there are fewer. */
  function LastN<T>(s: seq<T>, n: nat): (r: seq<T>)
    ensures |r| == if n < |s| then n else |s|
  {
    if n < |s| then s[|s| - n..] else s
  }

  /** `early_max`: the first ten years' annual maxima added up and divided by 10. */
  function EarlyMax(filtered: seq<YearSummary>): real
  {
    Sum(AvgMaxValues(Take(filtered, 10))) / 10.0
  }

  /** `late_max`: the last ten years' annual maxima added up and divided by 10. */
  function LateMax(filtered: seq<YearSummary>): real
  {
    Sum(AvgMaxValues(LastN(filtered, 10))) / 10.0
  }

  /** Ten values within bounds added up and divided by 10 stay within the bounds. */
  lemma TenBounded(xs: seq<real>, lo: real, hi: real)
    requires |xs| == 10
    requires forall i :: 0 <= i < 10 ==> lo <= xs[i] <= hi
    ensures lo <= Sum(xs) / 10.0 <= hi
  {
    SumBounds(xs, lo, hi);
  }

  /** With at least ten years, both are averages of ten annual maxima and so lie within the maxima's bounds. */
  lemma DecadeMeansBounded(filtered: seq<YearSummary>, lo: real, hi: real)
    requires |filtered| >= 10
    requires forall i :: 0 <= i < |filtered| ==> lo <= filtered[i].avgMax <= hi
    ensures lo <= EarlyMax(filtered) <= hi && lo <= LateMax(filtered) <= hi
  {
    var first, last := Take(filtered, 10), LastN(filtered, 10);
    assert forall i :: 0 <= i < 10 ==> first[i] == filtered[i];
    assert forall i :: 0 <= i < 10 ==> last[i] == filtered[|filtered| - 10 + i];
    TenBounded(AvgMaxValues(first), lo, hi);
    TenBounded(AvgMaxValues(last), lo, hi);
  }

  /**
   * With fewer than ten years both windows are the whole list, still divided
   * by 10: the two agree, the warming estimate is 0, and each is the sum of
   * fewer than ten maxima over 10.
   */
  lemma ShortSeriesDecades(filtered: seq<YearSummary>)
    requires |filtered| < 10
    ensures EarlyMax(filtered) == LateMax(filtered)
    ensures LateMax(filtered) - EarlyMax(filtered) == 0.0
    ensures EarlyMax(filtered) * 10.0 == Sum(AvgMaxValues(filtered))
  {
    assert Take(filtered, 10) == filtered && LastN(filtered, 10) == filtered;
  }
}
