/**
 * The records page (src/components/charts/TemperatureRankings.tsx): per-year
 * statistics, the ten hottest and coldest days, the five hottest and coldest
 * days of every month, and the top-ten views that sort the shared year list
 * one after another.
 */
module TemperatureRankings {
  import opened Numeric
  import opened Strings
  import opened Seqs
  import opened Sorting
  import opened TemperatureTypes
  import opened ChartCommon

  datatype YearlyStats = YearlyStats(
    year: int, avgMaxTemp: real, avgMinTemp: real, extremeHotDays: nat, tropicalNights: nat,
    tempRange: real, deviation: real)

  datatype DailyRecord = DailyRecord(date: string, year: int, month: int, day: int, temp: real)

  function Abs(x: real): (a: real)
    ensures a >= 0.0 && (a == x || a == -x)
  {
    if x < 0.0 then -x else x
  }

  // ---------------------------------------------------------------------------
  // Per-year statistics

  /**
   * `data.reduce(…) / data.length`. It is only used for the years of `data`,
   * so an empty `data` (where the code divides 0 by 0) never reaches a use.
   */
  function OverallAvgMax(data: seq<TemperatureData>): (m: real)
    ensures |data| > 0 ==> MinOf(MaxTemps(data)) <= m <= MaxOf(MaxTemps(data))
  {
    MeanOrZero(MaxTemps(data))
  }

  /** `d.max_temp >= 35`. */
  function ExtremeHotRecord(): TemperatureData -> bool
  {
    (r: TemperatureData) => r.max_temp >= 35.0
  }

  function AnyRecord(): TemperatureData -> bool
  {
    (r: TemperatureData) => true
  }

  /** Some record of `data` falls in year `y`. */
  predicate YearPresent(data: seq<TemperatureData>, y: int)
  {
    exists j :: 0 <= j < |data| && data[j].year == y
  }

  /** The year's records, never empty for a year that is present. */
  function YearRecords(data: seq<TemperatureData>, y: int): (g: seq<TemperatureData>)
    requires YearPresent(data, y)
    ensures |g| > 0
    ensures forall r :: r in g <==> r in data && r.year == y
  {
    var j :| 0 <= j < |data| && data[j].year == y;
    FilterMembers(data, InYear(y));
    assert data[j] in Filter(data, InYear(y));
    Filter(data, InYear(y))
  }

  /** The entry the loop pushes for year `y`. */
  function YearEntry(data: seq<TemperatureData>, y: int, overall: real): (e: YearlyStats)
    requires YearPresent(data, y)
    ensures var g := YearRecords(data, y);
      && e.year == y
      && e.avgMaxTemp == Mean(MaxTemps(g)) && e.avgMinTemp == Mean(MinTemps(g))
      && MinOf(MaxTemps(g)) <= e.avgMaxTemp <= MaxOf(MaxTemps(g))
      && MinOf(MinTemps(g)) <= e.avgMinTemp <= MaxOf(MinTemps(g))
      && e.extremeHotDays <= |g| && e.tropicalNights <= |g|
    ensures e.tempRange == e.avgMaxTemp - e.avgMinTemp
    ensures e.deviation >= 0.0
    ensures e.deviation == e.avgMaxTemp - overall || e.deviation == overall - e.avgMaxTemp
  {
    var g := YearRecords(data, y);
    var avgMax := Mean(MaxTemps(g));
    var avgMin := Mean(MinTemps(g));
    FilterCountMonotone(g, ExtremeHotRecord(), AnyRecord());
    FilterCountMonotone(g, TropicalRecord(), AnyRecord());
    FilterAllPass(g, AnyRecord());
    YearlyStats(y, avgMax, avgMin, |Filter(g, ExtremeHotRecord())|, |Filter(g, TropicalRecord())|,
      avgMax - avgMin, Abs(avgMax - overall))
  }

  /** `years.forEach(year => { … yearlyStats.push({…}) })`. */
  method RankingYearlyStats(data: seq<TemperatureData>) returns (yearlyStats: seq<YearlyStats>)
    ensures |yearlyStats| == |ChartYears(data)|
    ensures forall i :: 0 <= i < |yearlyStats| ==>
      YearPresent(data, ChartYears(data)[i]) &&
      yearlyStats[i] == YearEntry(data, ChartYears(data)[i], OverallAvgMax(data))
  {
    var years := ChartYears(data);
    ChartYearsShape(data);
    var overallAvgMax := OverallAvgMax(data);
    yearlyStats := [];
    for k := 0 to |years|
      invariant |yearlyStats| == k
      invariant forall i :: 0 <= i < k ==>
        YearPresent(data, years[i]) && yearlyStats[i] == YearEntry(data, years[i], overallAvgMax)
    {
      var year := years[k];
      assert year in years;
      yearlyStats := yearlyStats + [YearEntry(data, year, overallAvgMax)];
    }
  }

  // ---------------------------------------------------------------------------
  // Top lists of days

  /** `` `${d.year}年${d.month}月${d.day}日` ``. */
  function DateText(r: TemperatureData): string
  {
    IntToString(r.year) + "年" + IntToString(r.month) + "月" + IntToString(r.day) + "日"
  }

  function MaxRecord(r: TemperatureData): DailyRecord
  {
    DailyRecord(DateText(r), r.year, r.month, r.day, r.max_temp)
  }

  function MinRecord(r: TemperatureData): DailyRecord
  {
    DailyRecord(DateText(r), r.year, r.month, r.day, r.min_temp)
  }

  function TempOf(d: DailyRecord): real { d.temp }

  /**
   * `view` is a top-`n` list of `pool` under `le`: as long as it can be, in
   * order, drawn from the pool, and no element left out goes before one chosen.
   */
  ghost predicate TopList<T>(view: seq<T>, pool: multiset<T>, le: (T, T) -> bool, n: nat)
  {
    && |view| == (if n < |pool| then n else |pool|)
    && Sorted(view, le)
    && multiset(view) <= pool
    && forall i, y :: 0 <= i < |view| && y in pool - multiset(view) ==> le(view[i], y)
  }

  lemma TopListOf<T(!new)>(s: seq<T>, le: (T, T) -> bool, n: nat)
    requires TotalPreorder(le)
    ensures TopList(Take(SortBy(s, le), n), multiset(s), le, n)
  {
    TopN(s, le, n);
  }

  /** `dailyMaxRecords`: `.sort((a, b) => b.temp - a.temp).slice(0, 10)` over every day's maximum. */
  function DailyMaxRecords(data: seq<TemperatureData>): seq<DailyRecord>
  {
    Take(SortBy(MapSeq(data, MaxRecord), ByRealKeyDesc(TempOf)), 10)
  }

  /** `dailyMinRecords`: `.sort((a, b) => a.temp - b.temp).slice(0, 10)` over every day's minimum. */
  function DailyMinRecords(data: seq<TemperatureData>): seq<DailyRecord>
  {
    Take(SortBy(MapSeq(data, MinRecord), ByRealKey(TempOf)), 10)
  }

  /** The ten hottest days, hottest first; no day left out was hotter than a day listed. */
  lemma DailyMaxRecordsShape(data: seq<TemperatureData>)
    ensures TopList(DailyMaxRecords(data), multiset(MapSeq(data, MaxRecord)), ByRealKeyDesc(TempOf), 10)
  {
    ByRealKeyDescTotalPreorder(TempOf);
    TopListOf(MapSeq(data, MaxRecord), ByRealKeyDesc(TempOf), 10);
  }

  /** The ten coldest nights, coldest first; no day left out was colder than a day listed. */
  lemma DailyMinRecordsShape(data: seq<TemperatureData>)
    ensures TopList(DailyMinRecords(data), multiset(MapSeq(data, MinRecord)), ByRealKey(TempOf), 10)
  {
    ByRealKeyTotalPreorder(TempOf);
    TopListOf(MapSeq(data, MinRecord), ByRealKey(TempOf), 10);
  }

  /** `monthlyMaxRecords[month]`: the five hottest days among the month's records. */
  function MonthlyMax(data: seq<TemperatureData>, month: int): seq<DailyRecord>
  {
    Take(SortBy(MapSeq(Filter(data, InMonth(month)), MaxRecord), ByRealKeyDesc(TempOf)), 5)
  }

  /** `monthlyMinRecords[month]`: the five coldest nights among the month's records. */
  function MonthlyMin(data: seq<TemperatureData>, month: int): seq<DailyRecord>
  {
    Take(SortBy(MapSeq(Filter(data, InMonth(month)), MinRecord), ByRealKey(TempOf)), 5)
  }

  /** `for (let month = 1; month <= 12; month++) { … }`: both dictionaries, keyed 1 to 12. */
  method MonthlyRecords(data: seq<TemperatureData>)
    returns (maxRecords: map<int, seq<DailyRecord>>, minRecords: map<int, seq<DailyRecord>>)
    ensures forall m :: m in maxRecords <==> 1 <= m <= 12
    ensures forall m :: m in minRecords <==> 1 <= m <= 12
    ensures forall m :: 1 <= m <= 12 ==> maxRecords[m] == MonthlyMax(data, m) && minRecords[m] == MonthlyMin(data, m)
  {
    maxRecords, minRecords := FillMonths(m => MonthlyMax(data, m), m => MonthlyMin(data, m));
  }

  /** The month loop itself: entry `month` of each dictionary written once, for months 1 to 12. */
  method FillMonths<V>(maxOf: int -> V, minOf: int -> V) returns (maxRecords: map<int, V>, minRecords: map<int, V>)
    ensures forall m :: m in maxRecords <==> 1 <= m <= 12
    ensures forall m :: m in minRecords <==> 1 <= m <= 12
    ensures forall m :: 1 <= m <= 12 ==> maxRecords[m] == maxOf(m) && minRecords[m] == minOf(m)
  {
    maxRecords, minRecords := map[], map[];
    for month := 1 to 13
      invariant forall m :: m in maxRecords <==> 1 <= m < month
      invariant forall m :: m in minRecords <==> 1 <= m < month
      invariant forall m :: 1 <= m < month ==> maxRecords[m] == maxOf(m) && minRecords[m] == minOf(m)
    {
      maxRecords := maxRecords[month := maxOf(month)];
      minRecords := minRecords[month := minOf(month)];
    }
  }

  /** Every record built from the month's days belongs to that month. */
  lemma MonthRecordsOfMonth(data: seq<TemperatureData>, month: int, f: TemperatureData -> DailyRecord, x: DailyRecord)
    requires forall r :: f(r).month == r.month
    requires x in multiset(MapSeq(Filter(data, InMonth(month)), f))
    ensures x.month == month
  {
    var g := Filter(data, InMonth(month));
    var i :| 0 <= i < |g| && MapSeq(g, f)[i] == x;
    FilterMembers(data, InMonth(month));
    assert g[i] in g;
  }

  /** Up to five of the month's days, hottest first, none hotter left out, all of that month. */
  lemma MonthlyMaxShape(data: seq<TemperatureData>, month: int)
    ensures TopList(MonthlyMax(data, month), multiset(MapSeq(Filter(data, InMonth(month)), MaxRecord)),
      ByRealKeyDesc(TempOf), 5)
    ensures forall i :: 0 <= i < |MonthlyMax(data, month)| ==> MonthlyMax(data, month)[i].month == month
  {
    var all := MapSeq(Filter(data, InMonth(month)), MaxRecord);
    ByRealKeyDescTotalPreorder(TempOf);
    TopListOf(all, ByRealKeyDesc(TempOf), 5);
    var top := MonthlyMax(data, month);
    forall i | 0 <= i < |top|
      ensures top[i].month == month
    {
      assert top[i] in multiset(top);
      MonthRecordsOfMonth(data, month, MaxRecord, top[i]);
    }
  }

  /** Up to five of the month's nights, coldest first, none colder left out, all of that month. */
  lemma MonthlyMinShape(data: seq<TemperatureData>, month: int)
    ensures TopList(MonthlyMin(data, month), multiset(MapSeq(Filter(data, InMonth(month)), MinRecord)),
      ByRealKey(TempOf), 5)
    ensures forall i :: 0 <= i < |MonthlyMin(data, month)| ==> MonthlyMin(data, month)[i].month == month
  {
    var all := MapSeq(Filter(data, InMonth(month)), MinRecord);
    ByRealKeyTotalPreorder(TempOf);
    TopListOf(all, ByRealKey(TempOf), 5);
    var top := MonthlyMin(data, month);
    forall i | 0 <= i < |top|
      ensures top[i].month == month
    {
      assert top[i] in multiset(top);
      MonthRecordsOfMonth(data, month, MinRecord, top[i]);
    }
  }

  // ---------------------------------------------------------------------------
  // Ranking views over the shared year list

  function ExtremeHotDaysOf(s: YearlyStats): int { s.extremeHotDays }
  function TropicalNightsOf(s: YearlyStats): int { s.tropicalNights }
  function AvgMaxTempOf(s: YearlyStats): real { s.avgMaxTemp }
  function AvgMinTempOf(s: YearlyStats): real { s.avgMinTemp }
  function DeviationOf(s: YearlyStats): real { s.deviation }
  function TempRangeOf(s: YearlyStats): real { s.tempRange }

  /**
   * One view: `yearlyStats.sort(le).slice(0, 10)`. The sort works in place, so
   * the list the next view sorts is `sorted`, already ordered by this view's key.
   */
  method RankingView(stats: seq<YearlyStats>, le: (YearlyStats, YearlyStats) -> bool)
    returns (view: seq<YearlyStats>, sorted: seq<YearlyStats>)
    requires TotalPreorder(le)
    ensures TopList(view, multiset(stats), le, 10)
    ensures multiset(sorted) == multiset(stats) && Sorted(sorted, le)
    ensures sorted == SortBy(stats, le) && view == Take(sorted, 10)
  {
    sorted := SortBy(stats, le);
    view := Take(sorted, 10);
    TopListOf(stats, le, 10);
    SortBySorted(stats, le);
  }

  datatype YearlyTab = YearlyTab(
    byExtremeHot: seq<YearlyStats>, byTropicalNights: seq<YearlyStats>,
    byAvgMax: seq<YearlyStats>, byAvgMin: seq<YearlyStats>)

  /**
   * The 'yearly' tab: four top-ten views, each sorting the list the previous
   * one left behind. Each view is the top ten of all the years by its own
   * key, and the list is left ordered by the last key. Because every sort is
   * stable and starts from the order the previous view left, years that tie
   * on a key appear in that previous order.
   */
  method YearlyRankings(yearlyStats: seq<YearlyStats>) returns (tab: YearlyTab, stats: seq<YearlyStats>)
    ensures TopList(tab.byExtremeHot, multiset(yearlyStats), ByIntKeyDesc(ExtremeHotDaysOf), 10)
    ensures TopList(tab.byTropicalNights, multiset(yearlyStats), ByIntKeyDesc(TropicalNightsOf), 10)
    ensures TopList(tab.byAvgMax, multiset(yearlyStats), ByRealKeyDesc(AvgMaxTempOf), 10)
    ensures TopList(tab.byAvgMin, multiset(yearlyStats), ByRealKeyDesc(AvgMinTempOf), 10)
    ensures multiset(stats) == multiset(yearlyStats) && Sorted(stats, ByRealKeyDesc(AvgMinTempOf))
    ensures var s1 := SortBy(yearlyStats, ByIntKeyDesc(ExtremeHotDaysOf));
      var s2 := SortBy(s1, ByIntKeyDesc(TropicalNightsOf));
      var s3 := SortBy(s2, ByRealKeyDesc(AvgMaxTempOf));
      var s4 := SortBy(s3, ByRealKeyDesc(AvgMinTempOf));
      && tab == YearlyTab(Take(s1, 10), Take(s2, 10), Take(s3, 10), Take(s4, 10))
      && stats == s4
  {
    ByIntKeyDescTotalPreorder(ExtremeHotDaysOf);
    ByIntKeyDescTotalPreorder(TropicalNightsOf);
    ByRealKeyDescTotalPreorder(AvgMaxTempOf);
    ByRealKeyDescTotalPreorder(AvgMinTempOf);
    var v1, v2, v3, v4;
    stats := yearlyStats;
    v1, stats := RankingView(stats, ByIntKeyDesc(ExtremeHotDaysOf));
    v2, stats := RankingView(stats, ByIntKeyDesc(TropicalNightsOf));
    v3, stats := RankingView(stats, ByRealKeyDesc(AvgMaxTempOf));
    v4, stats := RankingView(stats, ByRealKeyDesc(AvgMinTempOf));
    tab := YearlyTab(v1, v2, v3, v4);
  }

  datatype AnomalyTab = AnomalyTab(byDeviation: seq<YearlyStats>, byTempRange: seq<YearlyStats>)

  /**
   * The 'anomaly' tab: the top ten by deviation, then by temperature range,
   * the second sort starting from the order the first one left.
   */
  method AnomalyRankings(yearlyStats: seq<YearlyStats>) returns (tab: AnomalyTab, stats: seq<YearlyStats>)
    ensures TopList(tab.byDeviation, multiset(yearlyStats), ByRealKeyDesc(DeviationOf), 10)
    ensures TopList(tab.byTempRange, multiset(yearlyStats), ByRealKeyDesc(TempRangeOf), 10)
    ensures multiset(stats) == multiset(yearlyStats) && Sorted(stats, ByRealKeyDesc(TempRangeOf))
    ensures var s1 := SortBy(yearlyStats, ByRealKeyDesc(DeviationOf));
      var s2 := SortBy(s1, ByRealKeyDesc(TempRangeOf));
      tab == AnomalyTab(Take(s1, 10), Take(s2, 10)) && stats == s2
  {
    ByRealKeyDescTotalPreorder(DeviationOf);
    ByRealKeyDescTotalPreorder(TempRangeOf);
    var v1, v2;
    stats := yearlyStats;
    v1, stats := RankingView(stats, ByRealKeyDesc(DeviationOf));
    v2, stats := RankingView(stats, ByRealKeyDesc(TempRangeOf));
    tab := AnomalyTab(v1, v2);
  }
}
