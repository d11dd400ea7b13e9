/**
 * `aggregateDailyData`: the day-of-year series. Records are grouped by
 * (month, day), 29 February is dropped, and the groups are read back by
 * walking a fixed non-leap calendar month by month and day by day, so
 * `day_of_year` is a date's position in that calendar even when earlier
 * dates have no records.
 */
module DailyAggregation {
  import opened Numeric
  import opened Strings
  import opened Seqs
  import opened TemperatureTypes
  import opened DataProcessor

  /** The month lengths of a common year, January first. */
  const DaysInMonth: seq<int> := [31, 28, 31, 30, 31, 30, 31, 31, 30, 31, 30, 31]

  /** The number of days in the first `m` months. */
  function PrefixDays(m: int): (n: int)
    requires 0 <= m <= 12
    ensures n >= 0
  {
    if m == 0 then 0 else PrefixDays(m - 1) + DaysInMonth[m - 1]
  }

  lemma {:induction false} PrefixDaysMonotone(a: int, b: int)
    requires 0 <= a <= b <= 12
    ensures PrefixDays(a) <= PrefixDays(b)
    decreases b - a
  {
    if a < b {
      PrefixDaysMonotone(a, b - 1);
    }
  }

  lemma CommonYearLength()
    ensures PrefixDays(12) == 365
  {
    assert PrefixDays(3) == 90;
    assert PrefixDays(6) == 181;
    assert PrefixDays(9) == 273;
  }

  /** A (month, day) pair that the calendar walk visits. */
  predicate InCalendar(md: (int, int))
  {
    1 <= md.0 <= 12 && 1 <= md.1 <= DaysInMonth[md.0 - 1]
  }

  /**
   * The 1-based position of a calendar date in the common year: the days of
   * the earlier months, then the day.
   */
  function DayOfYear(md: (int, int)): (n: int)
    requires InCalendar(md)
    ensures PrefixDays(md.0 - 1) < n <= PrefixDays(md.0)
  {
    PrefixDays(md.0 - 1) + md.1
  }

  /** `(record) => !(record.month === 2 && record.day === 29)`. */
  predicate NotLeapDay(r: TemperatureData)
  {
    !(r.month == 2 && r.day == 29)
  }

  /** The `${month}-${day}` key, as the pair it encodes. */
  function DayKey(r: TemperatureData): (int, int)
  {
    (r.month, r.day)
  }

  /** The records that reach the day `Map`. */
  function Kept(data: seq<TemperatureData>): seq<TemperatureData>
  {
    Filter(data, NotLeapDay)
  }

  /** `${month}/${day}`. */
  function DateLabel(month: int, day: int): string
  {
    IntToString(month) + "/" + IntToString(day)
  }

  /** The keys of the day `Map`: the (month, day) pairs of the kept records. */
  function DayKeys(data: seq<TemperatureData>): seq<(int, int)>
  {
    DistinctKeys(Kept(data), DayKey)
  }

  /** The entry for one calendar date with records: the rounded means of its group. */
  function DailyEntry(dayOfYear: int, month: int, day: int, g: seq<TemperatureData>): (e: DailyData)
    requires |g| > 0
    ensures e.day_of_year == dayOfYear && e.month == month && e.day == day
    ensures e.date_label == DateLabel(month, day)
    ensures e.avg_max_temp == Round1(AvgMax(g)) && e.avg_min_temp == Round1(AvgMin(g))
    ensures -0.1 <= e.temp_diff - (e.avg_max_temp - e.avg_min_temp) <= 0.1
  {
    Round1DiffWithin(AvgMax(g), AvgMin(g));
    DailyData(dayOfYear, month, day, DateLabel(month, day),
      Round1(AvgMax(g)), Round1(AvgMin(g)), Round1(AvgMax(g) - AvgMin(g)))
  }

  /** The day `Map`: each (month, day) of a kept record to the kept records of that date. */
  function DayGroups(data: seq<TemperatureData>): map<(int, int), seq<TemperatureData>>
  {
    map k | k in DayKeys(data) :: Group(Kept(data), DayKey, k)
  }

  predicate NonEmptyGroups(groups: map<(int, int), seq<TemperatureData>>)
  {
    forall k :: k in groups ==> |groups[k]| > 0
  }

  /** The day `Map` holds exactly the dates of the kept records, each with a non-empty group. */
  lemma DayGroupsShape(data: seq<TemperatureData>)
    ensures NonEmptyGroups(DayGroups(data))
    ensures forall k :: k in DayGroups(data) <==> k in DayKeys(data)
  {
    forall k | k in DayKeys(data)
      ensures |Group(Kept(data), DayKey, k)| > 0
    {
      GroupNonEmpty(Kept(data), DayKey, k);
    }
  }

  /** `groupBy` over the kept records builds the day `Map`. */
  lemma DayGroupsOfGroupBy(data: seq<TemperatureData>, keys: seq<(int, int)>, groups: map<(int, int), seq<TemperatureData>>)
    requires keys == DistinctKeys(Kept(data), DayKey)
    requires groups.Keys == set k | k in keys
    requires forall k :: k in groups ==> groups[k] == Group(Kept(data), DayKey, k)
    ensures groups == DayGroups(data)
  {
  }

  /** The entry of a calendar date that has a group. */
  function EntryIn(groups: map<(int, int), seq<TemperatureData>>, md: (int, int)): (e: DailyData)
    requires NonEmptyGroups(groups) && InCalendar(md) && md in groups
    ensures e.day_of_year == DayOfYear(md) && e.month == md.0 && e.day == md.1
    ensures e.date_label == DateLabel(md.0, md.1)
  {
    DailyEntry(DayOfYear(md), md.0, md.1, groups[md])
  }

  /** A date's entry holds the rounded means of the date's kept records and their rounded difference. */
  lemma DailyEntryAverages(data: seq<TemperatureData>, md: (int, int))
    requires InCalendar(md) && md in DayKeys(data)
    ensures NonEmptyGroups(DayGroups(data)) && md in DayGroups(data)
    ensures var e := EntryIn(DayGroups(data), md);
      var g := Group(Kept(data), DayKey, md);
      && |g| > 0
      && e.avg_max_temp == Round1(AvgMax(g)) && e.avg_min_temp == Round1(AvgMin(g))
      && -0.1 <= e.temp_diff - (e.avg_max_temp - e.avg_min_temp) <= 0.1
  {
    DayGroupsShape(data);
  }

  // The walk over the calendar.

  /** The entries the inner loop emits for days 1..`d` of month `m`. */
  function MonthEntriesTo(groups: map<(int, int), seq<TemperatureData>>, m: int, d: int): (r: seq<DailyData>)
    requires NonEmptyGroups(groups)
    requires 1 <= m <= 12 && 0 <= d <= DaysInMonth[m - 1]
    ensures |r| <= d
  {
    if d == 0 then []
    else
      MonthEntriesTo(groups, m, d - 1) + (if (m, d) in groups then [EntryIn(groups, (m, d))] else [])
  }

  /** The entries the outer loop emits for months 1..`m`. */
  function EntriesThrough(groups: map<(int, int), seq<TemperatureData>>, m: int): (r: seq<DailyData>)
    requires NonEmptyGroups(groups)
    requires 0 <= m <= 12
    ensures |r| <= PrefixDays(m)
  {
    if m == 0 then [] else EntriesThrough(groups, m - 1) + MonthEntriesTo(groups, m, DaysInMonth[m - 1])
  }

  /** One day of the inner loop: a date in the day `Map` adds its entry, any other date adds nothing. */
  lemma MonthEntriesToStep(groups: map<(int, int), seq<TemperatureData>>, m: int, d: int)
    requires NonEmptyGroups(groups)
    requires 1 <= m <= 12 && 1 <= d <= DaysInMonth[m - 1]
    ensures (m, d) in groups ==> MonthEntriesTo(groups, m, d) == MonthEntriesTo(groups, m, d - 1) + [EntryIn(groups, (m, d))]
    ensures (m, d) !in groups ==> MonthEntriesTo(groups, m, d) == MonthEntriesTo(groups, m, d - 1)
  {
    if (m, d) !in groups {
      assert MonthEntriesTo(groups, m, d) == MonthEntriesTo(groups, m, d - 1) + [];
    }
  }

  /** What `aggregateDailyData` returns: the entries of the whole walk over the day `Map`. */
  function DailySeries(data: seq<TemperatureData>): seq<DailyData>
  {
    DayGroupsShape(data);
    EntriesThrough(DayGroups(data), 12)
  }

  /**
   * `aggregateDailyData`: groups the kept records by (month, day), then walks
   * the calendar over the day `Map`.
   */
  method AggregateDailyData(data: seq<TemperatureData>) returns (result: seq<DailyData>)
    ensures result == DailySeries(data)
  {
    var kept := Filter(data, NotLeapDay);
    var keys, dailyData := GroupBy(kept, DayKey);
    DayGroupsOfGroupBy(data, keys, dailyData);
    DayGroupsShape(data);
    result := WalkCalendar(dailyData);
  }

  /**
   * The loops of `aggregateDailyData`: the months and their days in order,
   * with a running `dayOfYear` counter, emitting an entry for each date the
   * day `Map` has.
   */
  method WalkCalendar(dailyData: map<(int, int), seq<TemperatureData>>) returns (result: seq<DailyData>)
    requires NonEmptyGroups(dailyData)
    ensures result == EntriesThrough(dailyData, 12)
  {
    result := [];
    var dayOfYear := 1;
    for month := 1 to 13
      invariant dayOfYear == PrefixDays(month - 1) + 1
      invariant result == EntriesThrough(dailyData, month - 1)
    {
      var daysInMonth := DaysInMonth[month - 1];
      ghost var before := result;
      for day := 1 to daysInMonth + 1
        invariant dayOfYear == PrefixDays(month - 1) + day
        invariant result == before + MonthEntriesTo(dailyData, month, day - 1)
      {
        var key := (month, day);
        MonthEntriesToStep(dailyData, month, day);
        if key in dailyData {
          var temps := dailyData[key];
          var entry := DailyEntry(dayOfYear, month, day, temps);
          assert entry == EntryIn(dailyData, key);
          AppendAssoc(before, MonthEntriesTo(dailyData, month, day - 1), [entry]);
          result := result + [entry];
        }
        dayOfYear := dayOfYear + 1;
      }
    }
  }

  // What the walk produces.

  /** The calendar date an entry is for. */
  function DateOf(e: DailyData): (int, int)
  {
    (e.month, e.day)
  }

  /** Every entry is the entry of its own date, a calendar date with kept records. */
  predicate OwnDates(groups: map<(int, int), seq<TemperatureData>>, r: seq<DailyData>)
    requires NonEmptyGroups(groups)
  {
    forall i :: 0 <= i < |r| ==>
      InCalendar(DateOf(r[i])) && DateOf(r[i]) in groups && r[i] == EntryIn(groups, DateOf(r[i]))
  }

  predicate PositionsBetween(r: seq<DailyData>, lo: int, hi: int)
  {
    forall i :: 0 <= i < |r| ==> lo < r[i].day_of_year <= hi
  }

  predicate PositionsIncreasing(r: seq<DailyData>)
  {
    forall i, j :: 0 <= i < j < |r| ==> r[i].day_of_year < r[j].day_of_year
  }

  predicate HasEntryFor(r: seq<DailyData>, md: (int, int))
  {
    exists i :: 0 <= i < |r| && DateOf(r[i]) == md
  }

  lemma OwnDatesAppend(groups: map<(int, int), seq<TemperatureData>>, a: seq<DailyData>, b: seq<DailyData>)
    requires NonEmptyGroups(groups)
    requires OwnDates(groups, a) && OwnDates(groups, b)
    ensures OwnDates(groups, a + b)
  {
    forall i | 0 <= i < |a + b|
      ensures InCalendar(DateOf((a + b)[i])) && DateOf((a + b)[i]) in groups
      ensures (a + b)[i] == EntryIn(groups, DateOf((a + b)[i]))
    {
      if i < |a| {
        assert (a + b)[i] == a[i];
      } else {
        assert (a + b)[i] == b[i - |a|];
      }
    }
  }

  lemma PositionsAppend(a: seq<DailyData>, b: seq<DailyData>, lo: int, mid: int, hi: int)
    requires lo <= mid <= hi
    requires PositionsIncreasing(a) && PositionsBetween(a, lo, mid)
    requires PositionsIncreasing(b) && PositionsBetween(b, mid, hi)
    ensures PositionsIncreasing(a + b) && PositionsBetween(a + b, lo, hi)
  {
    forall i, j | 0 <= i < j < |a + b|
      ensures (a + b)[i].day_of_year < (a + b)[j].day_of_year
    {
      if j < |a| {
        assert (a + b)[i] == a[i] && (a + b)[j] == a[j];
      } else if i < |a| {
        assert (a + b)[i] == a[i] && (a + b)[j] == b[j - |a|];
      } else {
        assert (a + b)[i] == b[i - |a|] && (a + b)[j] == b[j - |a|];
      }
    }
    forall i | 0 <= i < |a + b|
      ensures lo < (a + b)[i].day_of_year <= hi
    {
      if i < |a| {
        assert (a + b)[i] == a[i];
      } else {
        assert (a + b)[i] == b[i - |a|];
      }
    }
  }

  lemma HasEntryAppend(a: seq<DailyData>, b: seq<DailyData>, md: (int, int))
    requires HasEntryFor(a, md) || HasEntryFor(b, md)
    ensures HasEntryFor(a + b, md)
  {
    if HasEntryFor(a, md) {
      var i :| 0 <= i < |a| && DateOf(a[i]) == md;
      assert (a + b)[i] == a[i];
    } else {
      var i :| 0 <= i < |b| && DateOf(b[i]) == md;
      assert (a + b)[|a| + i] == b[i];
    }
  }

  lemma {:induction false} MonthEntriesToOwnDates(groups: map<(int, int), seq<TemperatureData>>, m: int, d: int)
    requires NonEmptyGroups(groups)
    requires 1 <= m <= 12 && 0 <= d <= DaysInMonth[m - 1]
    ensures OwnDates(groups, MonthEntriesTo(groups, m, d))
  {
    if d > 0 {
      MonthEntriesToOwnDates(groups, m, d - 1);
      if (m, d) in groups {
        var e := EntryIn(groups, (m, d));
        assert DateOf(e) == (m, d);
        OwnDatesAppend(groups, MonthEntriesTo(groups, m, d - 1), [e]);
      } else {
        assert MonthEntriesTo(groups, m, d) == MonthEntriesTo(groups, m, d - 1) + [];
      }
    }
  }

  lemma {:induction false} MonthEntriesToPositions(groups: map<(int, int), seq<TemperatureData>>, m: int, d: int)
    requires NonEmptyGroups(groups)
    requires 1 <= m <= 12 && 0 <= d <= DaysInMonth[m - 1]
    ensures var r := MonthEntriesTo(groups, m, d);
      PositionsIncreasing(r) && PositionsBetween(r, PrefixDays(m - 1), PrefixDays(m - 1) + d)
  {
    if d > 0 {
      MonthEntriesToPositions(groups, m, d - 1);
      MonthEntriesToStep(groups, m, d);
      var lo := PrefixDays(m - 1);
      if (m, d) in groups {
        var e := EntryIn(groups, (m, d));
        assert PositionsBetween([e], lo + d - 1, lo + d);
        PositionsAppend(MonthEntriesTo(groups, m, d - 1), [e], lo, lo + d - 1, lo + d);
      }
    }
  }

  lemma {:induction false} MonthEntriesToCovers(groups: map<(int, int), seq<TemperatureData>>, m: int, d: int)
    requires NonEmptyGroups(groups)
    requires 1 <= m <= 12 && 0 <= d <= DaysInMonth[m - 1]
    ensures forall day :: 1 <= day <= d && (m, day) in groups ==> HasEntryFor(MonthEntriesTo(groups, m, d), (m, day))
  {
    if d > 0 {
      var prev := MonthEntriesTo(groups, m, d - 1);
      var last := if (m, d) in groups then [EntryIn(groups, (m, d))] else [];
      MonthEntriesToCovers(groups, m, d - 1);
      forall day | 1 <= day <= d && (m, day) in groups
        ensures HasEntryFor(prev + last, (m, day))
      {
        if day == d {
          assert DateOf(last[0]) == (m, day);
        }
        HasEntryAppend(prev, last, (m, day));
      }
    }
  }

  lemma {:induction false} EntriesThroughOwnDates(groups: map<(int, int), seq<TemperatureData>>, m: int)
    requires NonEmptyGroups(groups)
    requires 0 <= m <= 12
    ensures OwnDates(groups, EntriesThrough(groups, m))
  {
    if m > 0 {
      EntriesThroughOwnDates(groups, m - 1);
      MonthEntriesToOwnDates(groups, m, DaysInMonth[m - 1]);
      OwnDatesAppend(groups, EntriesThrough(groups, m - 1), MonthEntriesTo(groups, m, DaysInMonth[m - 1]));
    }
  }

  lemma {:induction false} EntriesThroughPositions(groups: map<(int, int), seq<TemperatureData>>, m: int)
    requires NonEmptyGroups(groups)
    requires 0 <= m <= 12
    ensures var r := EntriesThrough(groups, m);
      PositionsIncreasing(r) && PositionsBetween(r, 0, PrefixDays(m))
  {
    if m > 0 {
      EntriesThroughPositions(groups, m - 1);
      MonthEntriesToPositions(groups, m, DaysInMonth[m - 1]);
      PositionsAppend(EntriesThrough(groups, m - 1), MonthEntriesTo(groups, m, DaysInMonth[m - 1]),
        0, PrefixDays(m - 1), PrefixDays(m));
    }
  }

  lemma {:induction false} EntriesThroughCovers(groups: map<(int, int), seq<TemperatureData>>, m: int)
    requires NonEmptyGroups(groups)
    requires 0 <= m <= 12
    ensures forall md :: InCalendar(md) && md.0 <= m && md in groups ==> HasEntryFor(EntriesThrough(groups, m), md)
  {
    if m > 0 {
      var prev := EntriesThrough(groups, m - 1);
      var month := MonthEntriesTo(groups, m, DaysInMonth[m - 1]);
      EntriesThroughCovers(groups, m - 1);
      MonthEntriesToCovers(groups, m, DaysInMonth[m - 1]);
      forall md | InCalendar(md) && md.0 <= m && md in groups
        ensures HasEntryFor(prev + month, md)
      {
        HasEntryAppend(prev, month, md);
      }
    }
  }

  /** `a` comes before `b` in the calendar: an earlier month, or the same month and an earlier day. */
  predicate Before(a: (int, int), b: (int, int))
  {
    a.0 < b.0 || (a.0 == b.0 && a.1 < b.1)
  }

  /** Positions are at most 365, and they grow with the calendar order. */
  lemma DayOfYearOrder(a: (int, int), b: (int, int))
    requires InCalendar(a) && InCalendar(b)
    ensures DayOfYear(a) <= 365
    ensures Before(a, b) <==> DayOfYear(a) < DayOfYear(b)
  {
    PrefixDaysMonotone(a.0, 12);
    CommonYearLength();
    if a.0 < b.0 {
      PrefixDaysMonotone(a.0, b.0 - 1);
    } else if b.0 < a.0 {
      PrefixDaysMonotone(b.0, a.0 - 1);
    }
  }

  /**
   * The day-of-year series: each entry is for a calendar date with kept
   * records (so never 29 February), is that date's entry and sits at the
   * date's 1-based position in the common year; positions and dates are
   * strictly increasing; and every calendar date with kept records has an entry.
   */
  lemma DailySeriesShape(data: seq<TemperatureData>)
    ensures NonEmptyGroups(DayGroups(data))
    ensures var r := DailySeries(data);
      && |r| <= 365
      && (forall i :: 0 <= i < |r| ==>
            && InCalendar(DateOf(r[i])) && DateOf(r[i]) in DayKeys(data)
            && r[i] == EntryIn(DayGroups(data), DateOf(r[i]))
            && !(r[i].month == 2 && r[i].day == 29) && 1 <= r[i].day_of_year <= 365)
      && (forall i, j :: 0 <= i < j < |r| ==>
            r[i].day_of_year < r[j].day_of_year && Before(DateOf(r[i]), DateOf(r[j])))
      && (forall md :: InCalendar(md) && md in DayKeys(data) <==> HasEntryFor(r, md))
  {
    var groups := DayGroups(data);
    DayGroupsShape(data);
    var r := DailySeries(data);
    CommonYearLength();
    EntriesThroughOwnDates(groups, 12);
    EntriesThroughPositions(groups, 12);
    EntriesThroughCovers(groups, 12);
    forall i, j | 0 <= i < j < |r|
      ensures Before(DateOf(r[i]), DateOf(r[j]))
    {
      DayOfYearOrder(DateOf(r[i]), DateOf(r[j]));
    }
  }

  /** The records averaged for a date are exactly the input records of that date, never of 29 February. */
  lemma DailyGroupMembers(data: seq<TemperatureData>, md: (int, int))
    ensures forall x :: x in Group(Kept(data), DayKey, md) <==>
      x in data && (x.month, x.day) == md && !(md.0 == 2 && md.1 == 29)
  {
    FilterMembers(data, NotLeapDay);
    GroupMembers(Kept(data), DayKey, md);
  }

  /** A record's date is among the day keys exactly when it is not 29 February. */
  lemma DayKeysOfRecord(data: seq<TemperatureData>, k: int)
    requires 0 <= k < |data|
    ensures (data[k].month, data[k].day) in DayKeys(data) <==> NotLeapDay(data[k])
  {
    var md := (data[k].month, data[k].day);
    FilterMembers(data, NotLeapDay);
    forall j | 0 <= j < |Kept(data)|
      ensures DayKey(Kept(data)[j]) != (2, 29)
    {
      assert Kept(data)[j] in Kept(data);
    }
    if NotLeapDay(data[k]) {
      assert data[k] in Kept(data);
      var j :| 0 <= j < |Kept(data)| && Kept(data)[j] == data[k];
      assert DayKey(Kept(data)[j]) == md;
    }
  }

  /**
   * A record has an entry for its date in the series exactly when its
   * (month, day) is a date of the common-year calendar; records of any other
   * (month, day), 29 February included, are dropped.
   */
  lemma DailySeriesComplete(data: seq<TemperatureData>, k: int)
    requires 0 <= k < |data|
    ensures InCalendar((data[k].month, data[k].day)) <==> HasEntryFor(DailySeries(data), (data[k].month, data[k].day))
  {
    DailySeriesShape(data);
    DayKeysOfRecord(data, k);
    assert DaysInMonth[1] == 28;
  }
}
