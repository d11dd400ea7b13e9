/**
 * temperature_analysis.py: the data-quality report on the merged dataset.
 * It compares the years present with 1936-2024, flags years with fewer
 * records than days, lists the runs of missing dates, counts `null`
 * temperatures and impossible records (maximum below minimum), counts the
 * records of each month, repeats the annual aggregation skipping `null`s
 * and lists the years missing from the aggregated series.
 *
 * The records' `datetime` (`strptime` of the date text) is modelled as the
 * day number of the record's own year, month and day. The report's `print`
 * output is not part of the model.
 */
module TemperatureAnalysis {
  import opened Wrappers
  import opened Numeric
  import opened Seqs
  import opened Sorting
  import opened Calendar

  /** A record of the JSON dataset as the analysis reads it: either temperature may be `null`. */
  datatype Reading = Reading(date: string, year: int, month: int, day: int, maxTemp: Option<real>, minTemp: Option<real>)

  function ReadingYear(r: Reading): int { r.year }
  function ReadingMonth(r: Reading): int { r.month }

  /** A record whose date `strptime` accepts. */
  predicate HasValidDate(r: Reading)
  {
    ValidDate(r.year, r.month, r.day)
  }

  // ---------------------------------------------------------------------------
  // 1. The years present against 1936-2024

  const ExpectedFirstYear: int := 1936
  const ExpectedLastYear: int := 2024

  /** `set(item['year'] for item in data)`. */
  function ActualYears(data: seq<Reading>): set<int>
  {
    set i | 0 <= i < |data| :: data[i].year
  }

  /** `set(range(lo, hi + 1))`. */
  function YearRange(lo: int, hi: int): (r: set<int>)
    ensures forall y :: y in r <==> lo <= y <= hi
    ensures lo <= hi + 1 ==> |r| == hi - lo + 1
    decreases hi - lo
  {
    if hi < lo then {} else YearRange(lo, hi - 1) + {hi}
  }

  /**
   * `expected_years - actual_years`, the expected years being `lo` to `hi`
   * (1936 to 2024 in the report): the expected years no record has.
   */
  function MissingYears(data: seq<Reading>, lo: int, hi: int): (missing: set<int>)
    ensures forall y :: y in missing <==> lo <= y <= hi && forall i :: 0 <= i < |data| ==> data[i].year != y
  {
    YearRange(lo, hi) - ActualYears(data)
  }

  /** `actual_years - expected_years`: the years of records outside the expected range. */
  function ExtraYears(data: seq<Reading>, lo: int, hi: int): (extra: set<int>)
    ensures forall y :: y in extra <==> (y < lo || hi < y) && exists i :: 0 <= i < |data| && data[i].year == y
  {
    ActualYears(data) - YearRange(lo, hi)
  }

  /** The missing years and the expected years present together make up the whole expected range. */
  lemma MissingAndPresentCoverRange(data: seq<Reading>, lo: int, hi: int)
    requires lo <= hi + 1
    ensures |MissingYears(data, lo, hi)| + |ActualYears(data) * YearRange(lo, hi)| == hi - lo + 1
  {
    var expected, actual := YearRange(lo, hi), ActualYears(data);
    assert expected == (expected - actual) + (actual * expected);
    assert (expected - actual) * (actual * expected) == {};
  }

  // ---------------------------------------------------------------------------
  // 2. Years with fewer records than days

  /** An entry of `incomplete_years`: `(year, count, expected_days)`. */
  datatype Shortfall = Shortfall(year: int, count: nat, expected: int)

  function IntId(): int -> int
  {
    (y: int) => y
  }

  /** `sorted(keys)`: distinct years in ascending order. */
  function SortedYears(years: seq<int>): seq<int>
  {
    SortBy(years, ByIntKey(IntId()))
  }

  /** Sorting distinct years makes them strictly increase and keeps exactly the same years. */
  lemma SortedYearsShape(years: seq<int>)
    requires NoDup(years)
    ensures forall i, j :: 0 <= i < j < |SortedYears(years)| ==> SortedYears(years)[i] < SortedYears(years)[j]
    ensures forall y :: y in SortedYears(years) <==> y in years
  {
    var r := SortedYears(years);
    assert KeysDistinct(years, IntId());
    SortDistinctKeysStrict(years, IntId());
    forall i, j | 0 <= i < j < |r|
      ensures r[i] < r[j]
    {
      assert IntId()(r[i]) < IntId()(r[j]);
    }
    forall y
      ensures y in r <==> y in years
    {
      assert y in r <==> y in multiset(r);
      assert y in years <==> y in multiset(years);
    }
  }

  /** The shortfalls of the years that have fewer records than days, in the order of `years`. */
  function Shortfalls(years: seq<int>, counts: map<int, nat>): seq<Shortfall>
    requires forall i :: 0 <= i < |years| ==> years[i] in counts
  {
    if |years| == 0 then []
    else
      var year := years[|years| - 1];
      Shortfalls(years[..|years| - 1], counts) +
        (if counts[year] < DaysInYear(year) then [Shortfall(year, counts[year], DaysInYear(year))] else [])
  }

  /**
   * A shortfall is listed exactly for a listed year whose count is below its
   * number of days, with that count and that number; on ascending years the
   * shortfalls ascend too.
   */
  lemma {:induction false} ShortfallsShape(years: seq<int>, counts: map<int, nat>)
    requires forall i :: 0 <= i < |years| ==> years[i] in counts
    ensures forall e :: e in Shortfalls(years, counts) <==>
      e.year in years && e.count == counts[e.year] && e.expected == DaysInYear(e.year) && e.count < e.expected
    ensures (forall i, j :: 0 <= i < j < |years| ==> years[i] < years[j]) ==>
      forall i, j :: 0 <= i < j < |Shortfalls(years, counts)| ==>
        Shortfalls(years, counts)[i].year < Shortfalls(years, counts)[j].year
  {
    if |years| > 0 {
      var n := |years|;
      var init := years[..n - 1];
      var year := years[n - 1];
      ShortfallsShape(init, counts);
      var prev := Shortfalls(init, counts);
      assert years == init + [year];
      if counts[year] < DaysInYear(year) {
        var r := prev + [Shortfall(year, counts[year], DaysInYear(year))];
        assert Shortfalls(years, counts) == r;
        if forall i, j :: 0 <= i < j < |years| ==> years[i] < years[j] {
          forall k | 0 <= k < |prev|
            ensures prev[k].year < year
          {
            assert prev[k] in prev;
            var i :| 0 <= i < |init| && init[i] == prev[k].year;
            assert years[i] == init[i];
          }
        }
      } else {
        assert Shortfalls(years, counts) == prev + [];
        assert prev + [] == prev;
      }
    }
  }

  /**
   * The `for year in sorted(year_counts.keys())` loop: a year whose count is
   * below its number of days is appended with its count and that number.
   */
  method IncompleteYears(data: seq<Reading>) returns (incomplete: seq<Shortfall>)
    ensures forall e :: e in incomplete <==>
      && e.year in ActualYears(data)
      && e.count == |Group(data, ReadingYear, e.year)|
      && e.expected == DaysInYear(e.year)
      && e.count < e.expected
    ensures forall i, j :: 0 <= i < j < |incomplete| ==> incomplete[i].year < incomplete[j].year
  {
    var order, yearCounts := CountBy(data, ReadingYear);
    ShortfallsOfCounts(data, order, yearCounts);
    incomplete := CheckYears(SortedYears(order), yearCounts);
  }

  /** The loop body of `incomplete_years` over the given years. */
  method CheckYears(years: seq<int>, yearCounts: map<int, nat>) returns (incomplete: seq<Shortfall>)
    requires forall i :: 0 <= i < |years| ==> years[i] in yearCounts
    ensures incomplete == Shortfalls(years, yearCounts)
  {
    incomplete := [];
    for i := 0 to |years|
      invariant incomplete == Shortfalls(years[..i], yearCounts)
    {
      assert years[..i + 1][..i] == years[..i];
      var year := years[i];
      var count := yearCounts[year];
      var expectedDays := if IsLeap(year) then 366 else 365;
      if count < expectedDays {
        incomplete := incomplete + [Shortfall(year, count, expectedDays)];
      }
    }
    assert years[..|years|] == years;
  }

  /** The shortfalls of the sorted `Counter` keys describe the records' years. */
  lemma ShortfallsOfCounts(data: seq<Reading>, order: seq<int>, counts: map<int, nat>)
    requires order == DistinctKeys(data, ReadingYear)
    requires counts.Keys == set k | k in order
    requires forall k :: k in counts ==> counts[k] == |Group(data, ReadingYear, k)|
    ensures forall i :: 0 <= i < |SortedYears(order)| ==> SortedYears(order)[i] in counts
    ensures forall e :: e in Shortfalls(SortedYears(order), counts) <==>
      && e.year in ActualYears(data)
      && e.count == |Group(data, ReadingYear, e.year)|
      && e.expected == DaysInYear(e.year)
      && e.count < e.expected
    ensures forall i, j :: 0 <= i < j < |Shortfalls(SortedYears(order), counts)| ==>
      Shortfalls(SortedYears(order), counts)[i].year < Shortfalls(SortedYears(order), counts)[j].year
  {
    var years := SortedYears(order);
    SortedYearsShape(order);
    ShortfallsShape(years, counts);
    forall y
      ensures y in ActualYears(data) <==> y in years
    {
      if y in ActualYears(data) {
        var i :| 0 <= i < |data| && data[i].year == y;
        assert ReadingYear(data[i]) == y;
      }
    }
    forall e: Shortfall
      ensures e in Shortfalls(years, counts) <==>
        && e.year in ActualYears(data)
        && e.count == |Group(data, ReadingYear, e.year)|
        && e.expected == DaysInYear(e.year)
        && e.count < e.expected
    {
      if e.year in years {
        assert e.year in counts;
        assert counts[e.year] == |Group(data, ReadingYear, e.year)|;
      }
    }
  }

  // ---------------------------------------------------------------------------
  // 3. Runs of missing dates

  /** `item['datetime']`, as a day number. */
  function DayOf(r: Reading): int
  {
    if 1 <= r.month <= 12 then DayNumber(r.year, r.month, r.day) else 0
  }

  /** The days of the records in date order: `sorted(data, key=datetime)`, then the datetimes. */
  function SortedDays(data: seq<Reading>): seq<int>
  {
    MapSeq(SortBy(data, ByIntKey(DayOf)), DayOf)
  }

  /** An entry of `missing_dates`: `(missing_start, missing_end)`, as day numbers. */
  datatype Gap = Gap(first: int, last: int)

  /** The gap between two consecutive dates, when they are not one day apart. */
  function GapsOf(days: seq<int>): seq<Gap>
  {
    if |days| < 2 then []
    else
      var n := |days|;
      GapsOf(days[..n - 1]) + (if days[n - 1] != days[n - 2] + 1 then [Gap(days[n - 2] + 1, days[n - 1] - 1)] else [])
  }

  /** The `for i in range(len(dates) - 1)` loop comparing each date with the next. */
  method DateGaps(dates: seq<int>) returns (missingDates: seq<Gap>)
    ensures missingDates == GapsOf(dates)
  {
    missingDates := [];
    if |dates| < 2 {
      return;
    }
    for i := 0 to |dates| - 1
      invariant missingDates == GapsOf(dates[..i + 1])
    {
      assert dates[..i + 2][..i + 1] == dates[..i + 1];
      var currentDate, nextDate := dates[i], dates[i + 1];
      var expectedNext := currentDate + 1;
      if nextDate != expectedNext {
        missingDates := missingDates + [Gap(expectedNext, nextDate - 1)];
      }
    }
    assert dates[..|dates|] == dates;
  }

  /** `missing_dates` of the dataset. */
  method MissingDates(data: seq<Reading>) returns (missingDates: seq<Gap>)
    ensures missingDates == GapsOf(SortedDays(data))
  {
    var sortedData := SortBy(data, ByIntKey(DayOf));
    var dates := MapSeq(sortedData, DayOf);
    missingDates := DateGaps(dates);
  }

  /** `(end - start).days + 1` added up over the gaps. */
  function MissingDayCount(gaps: seq<Gap>): int
  {
    if |gaps| == 0 then 0 else MissingDayCount(gaps[..|gaps| - 1]) + (gaps[|gaps| - 1].last - gaps[|gaps| - 1].first + 1)
  }

  /**
   * On strictly increasing dates every gap is a real run of missing days, and
   * the gaps account for exactly the days between the first and the last date
   * that have no record.
   */
  lemma GapsCountMissingDays(days: seq<int>)
    requires forall i, j :: 0 <= i < j < |days| ==> days[i] < days[j]
    ensures forall k :: 0 <= k < |GapsOf(days)| ==> GapsOf(days)[k].first <= GapsOf(days)[k].last
    ensures |days| > 0 ==> MissingDayCount(GapsOf(days)) == days[|days| - 1] - days[0] + 1 - |days|
  {
    GapsProper(days);
    GapsCount(days);
  }

  /** On strictly increasing dates every gap starts no later than it ends. */
  lemma {:induction false} GapsProper(days: seq<int>)
    requires forall i, j :: 0 <= i < j < |days| ==> days[i] < days[j]
    ensures forall k :: 0 <= k < |GapsOf(days)| ==> GapsOf(days)[k].first <= GapsOf(days)[k].last
  {
    if |days| >= 2 {
      var n := |days|;
      var init := days[..n - 1];
      GapsProper(init);
      var g := GapsOf(init);
      assert days[n - 2] < days[n - 1];
      if days[n - 1] != days[n - 2] + 1 {
        var gap := Gap(days[n - 2] + 1, days[n - 1] - 1);
        assert GapsOf(days) == g + [gap];
        forall k | 0 <= k < |GapsOf(days)|
          ensures GapsOf(days)[k].first <= GapsOf(days)[k].last
        {
          if k < |g| {
            assert GapsOf(days)[k] == g[k];
          }
        }
      } else {
        assert GapsOf(days) == g + [];
        assert g + [] == g;
      }
    }
  }

  /** On strictly increasing dates the gaps count the days between the first and the last date with no record. */
  lemma {:induction false} GapsCount(days: seq<int>)
    requires forall i, j :: 0 <= i < j < |days| ==> days[i] < days[j]
    ensures |days| > 0 ==> MissingDayCount(GapsOf(days)) == days[|days| - 1] - days[0] + 1 - |days|
  {
    if |days| >= 2 {
      var n := |days|;
      var init := days[..n - 1];
      GapsCount(init);
      var g := GapsOf(init);
      assert init[0] == days[0] && init[n - 2] == days[n - 2];
      if days[n - 1] != days[n - 2] + 1 {
        var gap := Gap(days[n - 2] + 1, days[n - 1] - 1);
        assert GapsOf(days) == g + [gap];
        MissingDayCountSnoc(g, gap);
      } else {
        assert GapsOf(days) == g + [];
        assert g + [] == g;
      }
    }
  }

  /** One more gap adds its days to the count. */
  lemma MissingDayCountSnoc(gaps: seq<Gap>, gap: Gap)
    ensures MissingDayCount(gaps + [gap]) == MissingDayCount(gaps) + (gap.last - gap.first + 1)
  {
    assert (gaps + [gap])[..|gaps|] == gaps;
  }

  /** No gap is reported exactly when every date is followed by the next day. */
  lemma {:induction false} NoGapsIffConsecutive(days: seq<int>)
    ensures GapsOf(days) == [] <==> forall i :: 0 <= i < |days| - 1 ==> days[i + 1] == days[i] + 1
  {
    if |days| >= 2 {
      var init := days[..|days| - 1];
      NoGapsIffConsecutive(init);
      assert forall i :: 0 <= i < |init| ==> init[i] == days[i];
    }
  }

  /** A date that occurs twice yields a "gap" whose end precedes its start. */
  lemma DuplicateDateGap(d: int)
    ensures GapsOf([d, d]) == [Gap(d + 1, d - 1)]
    ensures MissingDayCount(GapsOf([d, d])) == -1
  {
    assert [d, d][..1] == [d];
  }

  /** The sorted datetimes do not decrease. */
  lemma SortedDaysAscending(data: seq<Reading>)
    ensures |SortedDays(data)| == |data|
    ensures forall i, j :: 0 <= i < j < |data| ==> SortedDays(data)[i] <= SortedDays(data)[j]
  {
    ByIntKeyTotalPreorder(DayOf);
    SortBySorted(data, ByIntKey(DayOf));
  }

  /** The calendar date of a record, `(year, month, day)`. */
  function DateTriple(r: Reading): (int, int, int)
  {
    (r.year, r.month, r.day)
  }

  /**
   * On dates `strptime` accepts, the comparison `next_date != expected_next`
   * with `expected_next = current_date + timedelta(days=1)` is the day-number
   * test: one day later in day numbers is exactly the next calendar date.
   */
  lemma NextDayIffNextDate(r: Reading, s: Reading)
    requires HasValidDate(r) && HasValidDate(s)
    ensures DayOf(s) == DayOf(r) + 1 <==> DateTriple(s) == NextDate(r.year, r.month, r.day)
  {
    var n := NextDate(r.year, r.month, r.day);
    NextDateIsOneDayLater(r.year, r.month, r.day);
    if DayOf(s) == DayOf(r) + 1 {
      DayNumberInjective(s.year, s.month, s.day, n.0, n.1, n.2);
    }
  }

  /**
   * On dates `strptime` accepts, sorting by day number is `sorted(data,
   * key=datetime)`: the records keep their valid dates, the sorted days are
   * their day numbers, and no record comes after a later-dated one.
   */
  lemma SortedValidDates(data: seq<Reading>)
    requires forall k :: 0 <= k < |data| ==> HasValidDate(data[k])
    ensures var sorted := SortBy(data, ByIntKey(DayOf));
      && |SortedDays(data)| == |sorted| == |data|
      && (forall i :: 0 <= i < |sorted| ==>
            HasValidDate(sorted[i]) && SortedDays(data)[i] == DayNumber(sorted[i].year, sorted[i].month, sorted[i].day))
      && (forall i, j :: 0 <= i < j < |sorted| ==>
            !DateBefore(sorted[j].year, sorted[j].month, sorted[j].day, sorted[i].year, sorted[i].month, sorted[i].day))
  {
    var sorted := SortBy(data, ByIntKey(DayOf));
    ByIntKeyTotalPreorder(DayOf);
    SortBySorted(data, ByIntKey(DayOf));
    forall i | 0 <= i < |sorted|
      ensures HasValidDate(sorted[i])
    {
      assert sorted[i] in multiset(data);
      assert sorted[i] in data;
      var k :| 0 <= k < |data| && data[k] == sorted[i];
    }
    forall i, j | 0 <= i < j < |sorted|
      ensures !DateBefore(sorted[j].year, sorted[j].month, sorted[j].day, sorted[i].year, sorted[i].month, sorted[i].day)
    {
      assert ByIntKey(DayOf)(sorted[i], sorted[j]);
      assert HasValidDate(sorted[i]) && HasValidDate(sorted[j]);
      assert DayOf(sorted[i]) <= DayOf(sorted[j]);
      DayNumberOrderIff(sorted[j].year, sorted[j].month, sorted[j].day, sorted[i].year, sorted[i].month, sorted[i].day);
    }
  }

  /**
   * On dates `strptime` accepts, `missing_dates` is empty exactly when each
   * record in date order is followed by a record of the next calendar date.
   */
  lemma NoMissingDatesIffDaily(data: seq<Reading>)
    requires forall k :: 0 <= k < |data| ==> HasValidDate(data[k])
    ensures var sorted := SortBy(data, ByIntKey(DayOf));
      GapsOf(SortedDays(data)) == [] <==>
        forall i :: 0 <= i < |sorted| - 1 ==>
          HasValidDate(sorted[i]) && DateTriple(sorted[i + 1]) == NextDate(sorted[i].year, sorted[i].month, sorted[i].day)
  {
    var sorted := SortBy(data, ByIntKey(DayOf));
    var days := SortedDays(data);
    SortedValidDates(data);
    NoGapsIffConsecutive(days);
    forall i | 0 <= i < |sorted| - 1
      ensures days[i + 1] == days[i] + 1 <==>
        HasValidDate(sorted[i]) && DateTriple(sorted[i + 1]) == NextDate(sorted[i].year, sorted[i].month, sorted[i].day)
    {
      NextDayIffNextDate(sorted[i], sorted[i + 1]);
    }
  }

  // ---------------------------------------------------------------------------
  // 4. Missing and impossible temperatures

  function MaxIsNull(): Reading -> bool
  {
    (r: Reading) => r.maxTemp.None?
  }

  function MinIsNull(): Reading -> bool
  {
    (r: Reading) => r.minTemp.None?
  }

  /** `sum(1 for item in data if item['max_temp'] is None)` and the same for the minimum. */
  function NullCounts(data: seq<Reading>): (nulls: (nat, nat))
  {
    (|Filter(data, MaxIsNull())|, |Filter(data, MinIsNull())|)
  }

  /** `valid_max_temps`: the maxima that are present, in record order. */
  function ValidMaxTemps(data: seq<Reading>): seq<real>
  {
    MapSeq(Filter(data, Not(MaxIsNull())), (r: Reading) => r.maxTemp.GetOr(0.0))
  }

  /** Each record is counted as a `null` maximum or contributes a valid maximum, never both. */
  lemma NullsAndValidMaxima(data: seq<Reading>)
    ensures NullCounts(data).0 + |ValidMaxTemps(data)| == |data|
    ensures NullCounts(data).0 == 0 <==> forall i :: 0 <= i < |data| ==> data[i].maxTemp.Some?
  {
    FilterComplement(data, MaxIsNull());
    FilterMembers(data, MaxIsNull());
    if NullCounts(data).0 != 0 {
      var f := Filter(data, MaxIsNull());
      assert f[0] in f;
    } else {
      forall i | 0 <= i < |data|
        ensures data[i].maxTemp.Some?
      {
        assert data[i] in data;
      }
    }
  }

  /** Both temperatures present and the maximum below the minimum. */
  function IsInvalid(): Reading -> bool
  {
    (r: Reading) => r.maxTemp.Some? && r.minTemp.Some? && r.maxTemp.value < r.minTemp.value
  }

  /** The `invalid_temp` loop. */
  method InvalidRecords(data: seq<Reading>) returns (invalidTemp: seq<Reading>)
    ensures invalidTemp == Filter(data, IsInvalid())
  {
    invalidTemp := [];
    for i := 0 to |data|
      invariant invalidTemp == Filter(data[..i], IsInvalid())
    {
      FilterPrefixStep(data, IsInvalid(), i);
      var item := data[i];
      if item.maxTemp.Some? && item.minTemp.Some? && item.maxTemp.value < item.minTemp.value {
        invalidTemp := invalidTemp + [item];
      }
    }
    assert data[..|data|] == data;
  }

  /** The impossible records are exactly those with both temperatures and the maximum below the minimum, in record order. */
  lemma InvalidRecordsMembers(data: seq<Reading>)
    ensures forall r :: r in Filter(data, IsInvalid()) <==>
      r in data && r.maxTemp.Some? && r.minTemp.Some? && r.maxTemp.value < r.minTemp.value
  {
    FilterMembers(data, IsInvalid());
  }

  // ---------------------------------------------------------------------------
  // 5. Records per month

  /** `month_counts.get(month, 0)` for the months 1 to 12. */
  function MonthDistribution(data: seq<Reading>): (counts: seq<nat>)
    ensures |counts| == 12
  {
    seq(12, i => |Group(data, ReadingMonth, i + 1)|)
  }

  function SumNats(s: seq<nat>): nat
  {
    if |s| == 0 then 0 else SumNats(s[..|s| - 1]) + s[|s| - 1]
  }

  const Months: seq<int> := [1, 2, 3, 4, 5, 6, 7, 8, 9, 10, 11, 12]

  lemma {:induction false} MonthPrefixSums(data: seq<Reading>, k: nat)
    requires k <= 12
    ensures SumNats(MonthDistribution(data)[..k]) == GroupSizes(data, ReadingMonth, Months[..k])
  {
    if k > 0 {
      MonthPrefixSums(data, k - 1);
      assert MonthDistribution(data)[..k][..k - 1] == MonthDistribution(data)[..k - 1];
      assert Months[..k][..k - 1] == Months[..k - 1];
      assert Months[k - 1] == k;
    }
  }

  /** When every record has a month from 1 to 12, the twelve counts add up to the number of records. */
  lemma MonthDistributionTotal(data: seq<Reading>)
    requires forall i :: 0 <= i < |data| ==> 1 <= data[i].month <= 12
    ensures SumNats(MonthDistribution(data)) == |data|
  {
    MonthPrefixSums(data, 12);
    assert MonthDistribution(data)[..12] == MonthDistribution(data);
    assert Months[..12] == Months;
    forall i | 0 <= i < |data|
      ensures ReadingMonth(data[i]) in Months
    {
      assert Months[data[i].month - 1] == data[i].month;
    }
    GroupSizesCover(data, ReadingMonth, Months);
  }

  // ---------------------------------------------------------------------------
  // 6. The annual aggregation that skips `null`s

  predicate Complete(r: Reading)
  {
    r.maxTemp.Some? && r.minTemp.Some?
  }

  function IsComplete(): Reading -> bool
  {
    (r: Reading) => Complete(r)
  }

  /** The records with both temperatures. */
  function CompleteRecords(data: seq<Reading>): seq<Reading>
  {
    Filter(data, IsComplete())
  }

  /** The maxima of records known to be complete. */
  function MaxValues(g: seq<Reading>): seq<real>
  {
    MapSeq(g, (r: Reading) => r.maxTemp.GetOr(0.0))
  }

  function MinValues(g: seq<Reading>): seq<real>
  {
    MapSeq(g, (r: Reading) => r.minTemp.GetOr(0.0))
  }

  /** The running sums of `annual_data[year]`. */
  datatype Totals = Totals(totalMax: real, totalMin: real, count: nat)

  /** An entry of the result: `year`, `avg_max_temp`, `avg_min_temp`, `data_count`. */
  datatype AnnualCount = AnnualCount(year: int, avgMax: real, avgMin: real, dataCount: nat)

  /** The running sums of a year's complete records, added up in record order. */
  function TotalsOf(g: seq<Reading>): Totals
  {
    if |g| == 0 then Totals(0.0, 0.0, 0)
    else
      var t, x := TotalsOf(g[..|g| - 1]), g[|g| - 1];
      Totals(t.totalMax + x.maxTemp.GetOr(0.0), t.totalMin + x.minTemp.GetOr(0.0), t.count + 1)
  }

  lemma TotalsSnoc(g: seq<Reading>, x: Reading)
    ensures TotalsOf(g + [x]) == Totals(TotalsOf(g).totalMax + x.maxTemp.GetOr(0.0),
                                        TotalsOf(g).totalMin + x.minTemp.GetOr(0.0), TotalsOf(g).count + 1)
  {
    assert (g + [x])[..|g|] == g;
  }

  /** The running sums are the sums of the maxima and of the minima, and the count is the number of records. */
  lemma {:induction false} TotalsAreSums(g: seq<Reading>)
    ensures TotalsOf(g) == Totals(Sum(MaxValues(g)), Sum(MinValues(g)), |g|)
  {
    if |g| > 0 {
      var init := g[..|g| - 1];
      TotalsAreSums(init);
      assert MaxValues(g)[..|g| - 1] == MaxValues(init);
      assert MinValues(g)[..|g| - 1] == MinValues(init);
    }
  }

  /** The years of a list, as the key set of the dictionary built over it. */
  function YearSet(ys: seq<int>): set<int>
  {
    set y | y in ys
  }

  /** The entry of a year with complete records: its means and its count. */
  function AnnualCountOf(year: int, g: seq<Reading>): AnnualCount
    requires |g| > 0
  {
    AnnualCount(year, Mean(MaxValues(g)), Mean(MinValues(g)), |g|)
  }

  /**
   * `aggregateAnnualData` of the report: the `defaultdict` accumulation over
   * the complete records, then one entry per year with a positive count.
   */
  method AggregateAnnualData(data: seq<Reading>) returns (years: seq<int>, result: map<int, AnnualCount>)
    ensures years == DistinctKeys(CompleteRecords(data), ReadingYear)
    ensures result.Keys == YearSet(years)
    ensures forall y :: y in result ==>
      |Group(CompleteRecords(data), ReadingYear, y)| > 0 &&
      result[y] == AnnualCountOf(y, Group(CompleteRecords(data), ReadingYear, y))
  {
    var annualData;
    years, annualData := AccumulateTotals(data);
    ghost var done := CompleteRecords(data);
    result := map[];
    for k := 0 to |years|
      invariant AveragesFor(done, years[..k], result)
    {
      var year := years[k];
      var values := annualData[year];
      AveragesOfTotals(done, years, annualData, year);
      if values.count > 0 {
        ghost var prior := result;
        result := result[year := AnnualCount(year, values.totalMax / values.count as real,
                                             values.totalMin / values.count as real, values.count)];
        AverageStep(done, years, annualData, k, prior, result);
      }
    }
    assert years[..|years|] == years;
  }

  /** The entries made for the years `ys`: one per year, each the year's means and count. */
  ghost predicate AveragesFor(done: seq<Reading>, ys: seq<int>, result: map<int, AnnualCount>)
  {
    && result.Keys == YearSet(ys)
    && forall y :: y in result ==>
      |Group(done, ReadingYear, y)| > 0 && result[y] == AnnualCountOf(y, Group(done, ReadingYear, y))
  }

  /** One more year's entry, made from its sums. */
  lemma AverageStep(done: seq<Reading>, years: seq<int>, annualData: map<int, Totals>, k: int,
                    result: map<int, AnnualCount>, result': map<int, AnnualCount>)
    requires TotalsFor(done, years, annualData)
    requires 0 <= k < |years|
    requires AveragesFor(done, years[..k], result)
    requires var t := annualData[years[k]];
      t.count > 0 &&
      result' == result[years[k] := AnnualCount(years[k], t.totalMax / t.count as real, t.totalMin / t.count as real, t.count)]
    ensures AveragesFor(done, years[..k + 1], result')
  {
    var year := years[k];
    assert years[..k + 1] == years[..k] + [year];
    AveragesOfTotals(done, years, annualData, year);
  }

  /** Dividing a year's sums by its count gives the year's means. */
  lemma AveragesOfTotals(done: seq<Reading>, years: seq<int>, annualData: map<int, Totals>, year: int)
    requires TotalsFor(done, years, annualData)
    requires year in annualData
    ensures annualData[year].count > 0
    ensures |Group(done, ReadingYear, year)| > 0
    ensures var t := annualData[year];
      AnnualCount(year, t.totalMax / t.count as real, t.totalMin / t.count as real, t.count) ==
        AnnualCountOf(year, Group(done, ReadingYear, year))
  {
    GroupNonEmpty(done, ReadingYear, year);
    TotalsAreSums(Group(done, ReadingYear, year));
  }

  /** `annual_data` after the records `done`: the years in first-seen order, each with the sums of its records. */
  ghost predicate TotalsFor(done: seq<Reading>, years: seq<int>, annualData: map<int, Totals>)
  {
    && years == DistinctKeys(done, ReadingYear)
    && annualData.Keys == YearSet(years)
    && forall y :: y in annualData ==> annualData[y] == TotalsOf(Group(done, ReadingYear, y))
  }

  /** The accumulation loop of `aggregateAnnualData` over the records with both temperatures. */
  method AccumulateTotals(data: seq<Reading>) returns (years: seq<int>, annualData: map<int, Totals>)
    ensures TotalsFor(CompleteRecords(data), years, annualData)
  {
    annualData := map[];
    years := [];
    ghost var done: seq<Reading> := [];
    for i := 0 to |data|
      invariant done == Filter(data[..i], IsComplete())
      invariant TotalsFor(done, years, annualData)
    {
      var item := data[i];
      FilterPrefixStep(data, IsComplete(), i);
      assert IsComplete()(item) == Complete(item);
      if item.maxTemp.Some? && item.minTemp.Some? {
        ghost var before, prior := years, annualData;
        years, annualData := AddRecord(years, annualData, item);
        AccumulateStep(done, item, before, prior, years, annualData);
        done := done + [item];
      }
    }
    assert data[..|data|] == data;
  }

  /** `annual_data[year]['total_max'] += ...` and the rest, for one complete record. */
  method AddRecord(years: seq<int>, annualData: map<int, Totals>, item: Reading)
    returns (years': seq<int>, annualData': map<int, Totals>)
    requires Complete(item)
    ensures years' == if item.year in annualData then years else years + [item.year]
    ensures annualData'.Keys == annualData.Keys + {item.year}
    ensures forall y :: y in annualData && y != item.year ==> annualData'[y] == annualData[y]
    ensures var start := if item.year in annualData then annualData[item.year] else Totals(0.0, 0.0, 0);
      annualData'[item.year] == Totals(start.totalMax + item.maxTemp.value, start.totalMin + item.minTemp.value, start.count + 1)
  {
    var year := item.year;
    years', annualData' := years, annualData;
    if year !in annualData' {
      years' := years' + [year];
      annualData' := annualData'[year := Totals(0.0, 0.0, 0)];
    }
    var values := annualData'[year];
    annualData' := annualData'[year := Totals(values.totalMax + item.maxTemp.value,
                                              values.totalMin + item.minTemp.value, values.count + 1)];
  }

  /** One complete record added to the sums of its year, the year being registered first when it is new. */
  lemma AccumulateStep(done: seq<Reading>, item: Reading, years: seq<int>, annualData: map<int, Totals>,
                       years': seq<int>, annualData': map<int, Totals>)
    requires TotalsFor(done, years, annualData)
    requires Complete(item)
    requires years' == if item.year in annualData then years else years + [item.year]
    requires annualData'.Keys == annualData.Keys + {item.year}
    requires forall y :: y in annualData && y != item.year ==> annualData'[y] == annualData[y]
    requires var start := if item.year in annualData then annualData[item.year] else Totals(0.0, 0.0, 0);
      annualData'[item.year] == Totals(start.totalMax + item.maxTemp.value, start.totalMin + item.minTemp.value, start.count + 1)
    ensures TotalsFor(done + [item], years', annualData')
  {
    YearsStep(done, item, years, annualData, years');
    forall y | y in annualData'
      ensures annualData'[y] == TotalsOf(Group(done + [item], ReadingYear, y))
    {
      EntryStep(done, item, years, annualData, annualData', y);
    }
  }

  /** The year list after one more complete record: its year is appended when it is new. */
  lemma YearsStep(done: seq<Reading>, item: Reading, years: seq<int>, annualData: map<int, Totals>, years': seq<int>)
    requires years == DistinctKeys(done, ReadingYear)
    requires annualData.Keys == YearSet(years)
    requires years' == if item.year in annualData then years else years + [item.year]
    ensures years' == DistinctKeys(done + [item], ReadingYear)
    ensures annualData.Keys + {item.year} == YearSet(years')
  {
    var next := done + [item];
    assert next[..|done|] == done;
    assert ReadingYear(item) == item.year;
  }

  /** One year's sums after one more complete record. */
  lemma EntryStep(done: seq<Reading>, item: Reading, years: seq<int>, annualData: map<int, Totals>,
                  annualData': map<int, Totals>, y: int)
    requires TotalsFor(done, years, annualData)
    requires Complete(item)
    requires y in annualData'
    requires annualData'.Keys == annualData.Keys + {item.year}
    requires y in annualData && y != item.year ==> annualData'[y] == annualData[y]
    requires var start := if item.year in annualData then annualData[item.year] else Totals(0.0, 0.0, 0);
      annualData'[item.year] == Totals(start.totalMax + item.maxTemp.value, start.totalMin + item.minTemp.value, start.count + 1)
    ensures annualData'[y] == TotalsOf(Group(done + [item], ReadingYear, y))
  {
    GroupSnoc(done, item, y);
    if y == item.year {
      YearTotalsStep(done, item, years, annualData);
    } else {
      var g := Group(done, ReadingYear, y);
      assert y in annualData;
      assert g + [] == g;
    }
  }

  /** The sums of the added record's year, from the defaultdict's zero sums when the year is new. */
  lemma YearTotalsStep(done: seq<Reading>, item: Reading, years: seq<int>, annualData: map<int, Totals>)
    requires TotalsFor(done, years, annualData)
    requires Complete(item)
    ensures var start := if item.year in annualData then annualData[item.year] else Totals(0.0, 0.0, 0);
      TotalsOf(Group(done, ReadingYear, item.year) + [item]) ==
        Totals(start.totalMax + item.maxTemp.value, start.totalMin + item.minTemp.value, start.count + 1)
  {
    var g := Group(done, ReadingYear, item.year);
    if item.year !in annualData {
      GroupAbsent(done, ReadingYear, item.year);
    }
    TotalsSnoc(g, item);
  }

  /** A record added at the end joins its own year's group and no other. */
  lemma GroupSnoc(done: seq<Reading>, item: Reading, y: int)
    ensures Group(done + [item], ReadingYear, y) == Group(done, ReadingYear, y) + (if y == item.year then [item] else [])
  {
    FilterAppend(done, [item], KeyIs(ReadingYear, y));
    assert ReadingYear(item) == item.year;
    assert KeyIs(ReadingYear, y)(item) == (ReadingYear(item) == y);
    assert Filter([item], KeyIs(ReadingYear, y)) == (if y == item.year then [item] else []) by {
      assert [item][..0] == [];
    }
  }

  /**
   * `missing_in_aggregation`: a year of the data is missing from the
   * aggregation exactly when every one of its records has a `null`.
   */
  lemma MissingInAggregation(data: seq<Reading>, y: int)
    requires y in ActualYears(data)
    ensures y !in DistinctKeys(CompleteRecords(data), ReadingYear) <==>
      forall i :: 0 <= i < |data| && data[i].year == y ==> !Complete(data[i])
  {
    var c := CompleteRecords(data);
    FilterMembers(data, IsComplete());
    if y in DistinctKeys(c, ReadingYear) {
      var j :| 0 <= j < |c| && ReadingYear(c[j]) == y;
      assert c[j] in c;
      var i :| 0 <= i < |data| && data[i] == c[j];
      assert data[i].year == y && Complete(data[i]);
    }
    forall i | 0 <= i < |data| && data[i].year == y && Complete(data[i])
      ensures y in DistinctKeys(c, ReadingYear)
    {
      assert data[i] in c;
      var j :| 0 <= j < |c| && c[j] == data[i];
      assert ReadingYear(c[j]) == y;
    }
  }

  // ---------------------------------------------------------------------------
  // 7. Years missing from the aggregated series

  /**
   * The `missing_years_in_series` loop over consecutive aggregated years
   * (sorted keys): the years strictly between two neighbours, ascending.
   */
  method MissingYearsInSeries(annualYears: seq<int>) returns (missing: seq<int>)
    requires forall i, j :: 0 <= i < j < |annualYears| ==> annualYears[i] < annualYears[j]
    ensures forall y :: y in missing <==>
      |annualYears| > 0 && annualYears[0] <= y <= annualYears[|annualYears| - 1] && y !in annualYears
    ensures forall i, j :: 0 <= i < j < |missing| ==> missing[i] < missing[j]
  {
    missing := [];
    if |annualYears| == 0 {
      return;
    }
    for i := 0 to |annualYears| - 1
      invariant forall y :: y in missing <==> annualYears[0] <= y <= annualYears[i] && y !in annualYears
      invariant forall k :: 0 <= k < |missing| ==> missing[k] < annualYears[i]
      invariant forall k, l :: 0 <= k < l < |missing| ==> missing[k] < missing[l]
    {
      var currentYear, nextYear := annualYears[i], annualYears[i + 1];
      if nextYear != currentYear + 1 {
        var missingYear := currentYear + 1;
        while missingYear < nextYear
          invariant currentYear + 1 <= missingYear <= nextYear
          invariant forall y :: y in missing <==> annualYears[0] <= y < missingYear && y !in annualYears
          invariant forall k :: 0 <= k < |missing| ==> missing[k] < missingYear
          invariant forall k, l :: 0 <= k < l < |missing| ==> missing[k] < missing[l]
        {
          NotInBetween(annualYears, i, missingYear);
          missing := missing + [missingYear];
          missingYear := missingYear + 1;
        }
      }
      NotInBetween(annualYears, i, nextYear);
    }
  }

  /** No year of a strictly increasing list lies strictly between two neighbours. */
  lemma NotInBetween(years: seq<int>, i: int, y: int)
    requires forall a, b :: 0 <= a < b < |years| ==> years[a] < years[b]
    requires 0 <= i < |years| - 1
    ensures years[i] < y < years[i + 1] ==> y !in years
    ensures y == years[i + 1] ==> y in years
  {
    if years[i] < y < years[i + 1] {
      forall k | 0 <= k < |years|
        ensures years[k] != y
      {
        if k <= i {
          assert k == i || years[k] < years[i];
        } else {
          assert k == i + 1 || years[i + 1] < years[k];
        }
      }
    }
  }
}
