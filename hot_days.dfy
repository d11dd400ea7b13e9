/**
 * The hot-days chart (src/components/charts/HotDaysChart.tsx): for every year
 * on the chart's axis, the number of 猛暑日, 真夏日 and 夏日, counted in exclusive
 * buckets; the tooltip total; the averages per era.
 */
module HotDays {
  import opened Wrappers
  import opened Seqs
  import opened Sorting
  import opened TemperatureTypes
  import opened ChartCommon

  datatype YearlyHotDays = YearlyHotDays(year: int, extremeHot: nat, veryHot: nat, hotSummer: nat)

  /** The entry the loop pushes for year `y`. */
  function HotDaysEntry(data: seq<TemperatureData>, y: int): (e: YearlyHotDays)
    ensures e.year == y
    ensures e.extremeHot + e.veryHot + e.hotSummer <= |Filter(data, InYear(y))|
  {
    var g := Filter(data, InYear(y));
    BucketCounts(g);
    YearlyHotDays(y, |Filter(g, InBucket(ExtremeHot))|, |Filter(g, InBucket(VeryHot))|, |Filter(g, InBucket(HotSummer))|)
  }

  /**
   * `years.forEach(year => { … yearlyStats.push({year, extremeHot, veryHot, hotSummer}) })`
   * over `years = Array.from(new Set(data.map(d => d.year))).sort()`.
   */
  method HotDaysStats(data: seq<TemperatureData>) returns (yearlyStats: seq<YearlyHotDays>)
    ensures |yearlyStats| == |ChartYears(data)|
    ensures forall i :: 0 <= i < |yearlyStats| ==> yearlyStats[i] == HotDaysEntry(data, ChartYears(data)[i])
  {
    yearlyStats := EntriesFor(data, ChartYears(data));
  }

  /** The `forEach` over the axis years: one pushed entry per year, in order. */
  method EntriesFor(data: seq<TemperatureData>, years: seq<int>) returns (yearlyStats: seq<YearlyHotDays>)
    ensures |yearlyStats| == |years|
    ensures forall i :: 0 <= i < |yearlyStats| ==> yearlyStats[i] == HotDaysEntry(data, years[i])
  {
    yearlyStats := [];
    for k := 0 to |years|
      invariant |yearlyStats| == k
      invariant forall i :: 0 <= i < k ==> yearlyStats[i] == HotDaysEntry(data, years[i])
    {
      var entry := YearEntry(data, years[k]);
      yearlyStats := yearlyStats + [entry];
    }
  }

  /** The body of the `forEach`: the year's records, counted into the three buckets. */
  method YearEntry(data: seq<TemperatureData>, year: int) returns (entry: YearlyHotDays)
    ensures entry == HotDaysEntry(data, year)
  {
    var yearData := Filter(data, InYear(year));
    var extremeHot, veryHot, hotSummer := CountBuckets(yearData);
    entry := YearlyHotDays(year, extremeHot, veryHot, hotSummer);
  }

  function StatYear(s: YearlyHotDays): int { s.year }

  function Years(s: seq<YearlyHotDays>): (ys: seq<int>)
    ensures |ys| == |s| && forall i :: 0 <= i < |s| ==> ys[i] == s[i].year
  {
    MapSeq(s, StatYear)
  }

  /**
   * The entries follow the axis: one per year with a record, no year twice;
   * the buckets of an entry never count more days than its year has.
   */
  lemma HotDaysStatsShape(data: seq<TemperatureData>, yearlyStats: seq<YearlyHotDays>)
    requires |yearlyStats| == |ChartYears(data)|
    requires forall i :: 0 <= i < |yearlyStats| ==> yearlyStats[i] == HotDaysEntry(data, ChartYears(data)[i])
    ensures Years(yearlyStats) == ChartYears(data)
    ensures forall y :: y in Years(yearlyStats) <==> exists j :: 0 <= j < |data| && data[j].year == y
    ensures KeysDistinct(yearlyStats, StatYear)
    ensures forall i :: 0 <= i < |yearlyStats| ==>
      yearlyStats[i].extremeHot + yearlyStats[i].veryHot + yearlyStats[i].hotSummer
        <= |Filter(data, InYear(yearlyStats[i].year))|
  {
    var ys := ChartYears(data);
    assert Years(yearlyStats) == ys;
    ChartYearsShape(data);
    forall i, j | 0 <= i < j < |yearlyStats|
      ensures StatYear(yearlyStats[i]) != StatYear(yearlyStats[j])
    {
      assert Identity(ys[i]) != Identity(ys[j]);
    }
  }

  // ---------------------------------------------------------------------------
  // Tooltip

  function HasYear(y: int): YearlyHotDays -> bool
  {
    (s: YearlyHotDays) => s.year == y
  }

  /**
   * `yearlyStats.find(s => s.year === years[index])`, then
   * `extremeHot + veryHot + hotSummer`; nothing when no entry has that year.
   */
  function TooltipTotal(yearlyStats: seq<YearlyHotDays>, year: int): (t: Option<nat>)
    ensures t.None? <==> forall i :: 0 <= i < |yearlyStats| ==> yearlyStats[i].year != year
  {
    match FindFirst(yearlyStats, HasYear(year))
    case Some(s) => Some(s.extremeHot + s.veryHot + s.hotSummer)
    case None => None
  }

  /**
   * When no two entries share a year (HotDaysStatsShape), the tooltip of an
   * entry's year shows that entry's three buckets added up.
   */
  lemma TooltipTotalOfYear(yearlyStats: seq<YearlyHotDays>, i: int)
    requires KeysDistinct(yearlyStats, StatYear)
    requires 0 <= i < |yearlyStats|
    ensures TooltipTotal(yearlyStats, yearlyStats[i].year)
      == Some(yearlyStats[i].extremeHot + yearlyStats[i].veryHot + yearlyStats[i].hotSummer)
  {
    FindByDistinctKey(yearlyStats, StatYear, HasYear(yearlyStats[i].year), i);
  }

  // ---------------------------------------------------------------------------
  // Era averages

  datatype HotDaysAverage = HotDaysAverage(extremeHot: real, veryHot: real, hotSummer: real)

  function ExtremeHotOf(s: YearlyHotDays): nat { s.extremeHot }
  function VeryHotOf(s: YearlyHotDays): nat { s.veryHot }
  function HotSummerOf(s: YearlyHotDays): nat { s.hotSummer }

  /** `meijiAvg`, `showaAvg`, …: each bucket averaged over the era's years, 0 for an era without years. */
  function EraHotDays(yearlyStats: seq<YearlyHotDays>, e: Era): (avg: HotDaysAverage)
    ensures (forall i :: 0 <= i < |yearlyStats| ==> !InEra(e, yearlyStats[i].year)) ==>
      avg == HotDaysAverage(0.0, 0.0, 0.0)
  {
    var ys := Years(yearlyStats);
    HotDaysAverage(
      EraAverage(ys, MapSeq(yearlyStats, ExtremeHotOf), e),
      EraAverage(ys, MapSeq(yearlyStats, VeryHotOf), e),
      EraAverage(ys, MapSeq(yearlyStats, HotSummerOf), e))
  }

  /**
   * When every year of the era that has records counts between `lo` and `hi`
   * days in each bucket, the era's averages lie between `lo` and `hi` too.
   */
  lemma EraHotDaysBounded(yearlyStats: seq<YearlyHotDays>, e: Era, lo: nat, hi: nat)
    requires exists i :: 0 <= i < |yearlyStats| && InEra(e, yearlyStats[i].year)
    requires forall i :: 0 <= i < |yearlyStats| && InEra(e, yearlyStats[i].year) ==>
      && lo <= yearlyStats[i].extremeHot <= hi
      && lo <= yearlyStats[i].veryHot <= hi
      && lo <= yearlyStats[i].hotSummer <= hi
    ensures var avg := EraHotDays(yearlyStats, e);
      && lo as real <= avg.extremeHot <= hi as real
      && lo as real <= avg.veryHot <= hi as real
      && lo as real <= avg.hotSummer <= hi as real
  {
    var ys := Years(yearlyStats);
    var i :| 0 <= i < |yearlyStats| && InEra(e, yearlyStats[i].year);
    assert InEra(e, ys[i]);
    EraAverageBounded(ys, MapSeq(yearlyStats, ExtremeHotOf), e, lo as real, hi as real);
    EraAverageBounded(ys, MapSeq(yearlyStats, VeryHotOf), e, lo as real, hi as real);
    EraAverageBounded(ys, MapSeq(yearlyStats, HotSummerOf), e, lo as real, hi as real);
  }
}
