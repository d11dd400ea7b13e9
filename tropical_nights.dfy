/**
 * The tropical-nights chart (src/components/charts/TropicalNightsChart.tsx):
 * for every year on the chart's axis the number of 熱帯夜 (minimum ≥ 25 °C),
 * the centred 10-year moving average of those counts, the tooltip, and the
 * averages per era.
 */
module TropicalNights {
  import opened Wrappers
  import opened Numeric
  import opened Strings
  import opened Seqs
  import opened Sorting
  import opened TemperatureTypes
  import opened ChartCommon

  datatype YearlyTropicalNights = YearlyTropicalNights(year: int, tropicalNights: nat)

  /** The entry the loop pushes for year `y`. */
  function TropicalEntry(data: seq<TemperatureData>, y: int): (e: YearlyTropicalNights)
    ensures e.year == y
    ensures e.tropicalNights <= |Filter(data, InYear(y))|
  {
    var g := Filter(data, InYear(y));
    FilterCountMonotone(g, TropicalRecord(), AnyRecord());
    FilterAllPass(g, AnyRecord());
    YearlyTropicalNights(y, |Filter(g, TropicalRecord())|)
  }

  function AnyRecord(): TemperatureData -> bool
  {
    (r: TemperatureData) => true
  }

  /**
   * `years.forEach(year => { let tropicalNights = 0; yearData.forEach(…); yearlyStats.push(…) })`.
   */
  method TropicalNightsStats(data: seq<TemperatureData>) returns (yearlyStats: seq<YearlyTropicalNights>)
    ensures |yearlyStats| == |ChartYears(data)|
    ensures forall i :: 0 <= i < |yearlyStats| ==> yearlyStats[i] == TropicalEntry(data, ChartYears(data)[i])
  {
    yearlyStats := EntriesFor(data, ChartYears(data));
  }

  /** The `forEach` over the axis years: one pushed entry per year, in order. */
  method EntriesFor(data: seq<TemperatureData>, years: seq<int>) returns (yearlyStats: seq<YearlyTropicalNights>)
    ensures |yearlyStats| == |years|
    ensures forall i :: 0 <= i < |yearlyStats| ==> yearlyStats[i] == TropicalEntry(data, years[i])
  {
    yearlyStats := [];
    for k := 0 to |years|
      invariant |yearlyStats| == k
      invariant forall i :: 0 <= i < k ==> yearlyStats[i] == TropicalEntry(data, years[i])
    {
      var entry := YearEntry(data, years[k]);
      yearlyStats := yearlyStats + [entry];
    }
  }

  /** The body of the `forEach`: the year's tropical nights, counted. */
  method YearEntry(data: seq<TemperatureData>, year: int) returns (entry: YearlyTropicalNights)
    ensures entry == TropicalEntry(data, year)
  {
    var yearData := Filter(data, InYear(year));
    var tropicalNights := CountTropicalNights(yearData);
    entry := YearlyTropicalNights(year, tropicalNights);
  }

  function StatYear(s: YearlyTropicalNights): int { s.year }

  function Years(s: seq<YearlyTropicalNights>): (ys: seq<int>)
    ensures |ys| == |s| && forall i :: 0 <= i < |s| ==> ys[i] == s[i].year
  {
    MapSeq(s, StatYear)
  }

  function NightsOf(s: YearlyTropicalNights): nat { s.tropicalNights }

  /** `yearlyStats.map(stat => stat.tropicalNights)`, the values the chart plots. */
  function Counts(s: seq<YearlyTropicalNights>): (xs: seq<real>)
    ensures |xs| == |s| && forall i :: 0 <= i < |s| ==> xs[i] == s[i].tropicalNights as real
  {
    if |s| == 0 then [] else Counts(s[..|s| - 1]) + [s[|s| - 1].tropicalNights as real]
  }

  /**
   * One entry per year with a record, no year twice; a year's count never
   * exceeds its number of records.
   */
  lemma TropicalNightsStatsShape(data: seq<TemperatureData>, yearlyStats: seq<YearlyTropicalNights>)
    requires |yearlyStats| == |ChartYears(data)|
    requires forall i :: 0 <= i < |yearlyStats| ==> yearlyStats[i] == TropicalEntry(data, ChartYears(data)[i])
    ensures Years(yearlyStats) == ChartYears(data)
    ensures forall y :: y in Years(yearlyStats) <==> exists j :: 0 <= j < |data| && data[j].year == y
    ensures KeysDistinct(yearlyStats, StatYear)
    ensures forall i :: 0 <= i < |yearlyStats| ==>
      yearlyStats[i].tropicalNights <= |Filter(data, InYear(yearlyStats[i].year))|
  {
    var ys := ChartYears(data);
    assert Years(yearlyStats) == ys;
    ChartYearsShape(data);
    forall i, j | 0 <= i < j < |yearlyStats|
      ensures StatYear(yearlyStats[i]) != StatYear(yearlyStats[j])
    {
      assert Identity(ys[i]) != Identity(ys[j]);
    }
  }

  /**
   * `movingAverage10`, entry `i`: the mean of the counts at indices
   * `max(0, i - 4)` to `min(n - 1, i + 5)`; a window of 1 to 10 years, and a
   * value between the smallest and the largest count in it, so never negative.
   */
  lemma MovingAverage10At(yearlyStats: seq<YearlyTropicalNights>, i: int)
    requires 0 <= i < |yearlyStats|
    ensures |MovingAverage(Counts(yearlyStats), 4, 5)| == |yearlyStats|
    ensures var w := Window(Counts(yearlyStats), i, 4, 5);
      && w == Counts(yearlyStats)[Max(0, i - 4)..Min(|yearlyStats| - 1, i + 5) + 1]
      && 1 <= |w| <= 10
      && MinOf(w) <= MovingAverage(Counts(yearlyStats), 4, 5)[i] <= MaxOf(w)
      && 0.0 <= MovingAverage(Counts(yearlyStats), 4, 5)[i]
  {
    MovingAverageNonNegative(Counts(yearlyStats), 4, 5, i);
  }

  // ---------------------------------------------------------------------------
  // Tooltip

  function HasYear(y: int): YearlyTropicalNights -> bool
  {
    (s: YearlyTropicalNights) => s.year == y
  }

  /** `yearlyStats.find(s => s.year === years[index])?.tropicalNights`. */
  function TooltipNights(yearlyStats: seq<YearlyTropicalNights>, year: int): (t: Option<nat>)
    ensures t.None? <==> forall i :: 0 <= i < |yearlyStats| ==> yearlyStats[i].year != year
  {
    match FindFirst(yearlyStats, HasYear(year))
    case Some(s) => Some(s.tropicalNights)
    case None => None
  }

  /** With one entry per year, the tooltip shows that year's own count. */
  lemma TooltipNightsOfYear(yearlyStats: seq<YearlyTropicalNights>, i: int)
    requires KeysDistinct(yearlyStats, StatYear)
    requires 0 <= i < |yearlyStats|
    ensures TooltipNights(yearlyStats, yearlyStats[i].year) == Some(yearlyStats[i].tropicalNights)
  {
    FindByDistinctKey(yearlyStats, StatYear, HasYear(yearlyStats[i].year), i);
  }

  // ---------------------------------------------------------------------------
  // Era averages

  /** `meijiAvg.tropicalNights`, …: the era's mean count, 0 for an era without years. */
  function EraTropicalNights(yearlyStats: seq<YearlyTropicalNights>, e: Era): (avg: real)
    ensures (forall i :: 0 <= i < |yearlyStats| ==> !InEra(e, yearlyStats[i].year)) ==> avg == 0.0
    ensures avg >= 0.0
  {
    EraAverage(Years(yearlyStats), MapSeq(yearlyStats, NightsOf), e)
  }

  /** When every year of the era that has records counts between `lo` and `hi` tropical nights, so does the era's average. */
  lemma EraTropicalNightsBounded(yearlyStats: seq<YearlyTropicalNights>, e: Era, lo: nat, hi: nat)
    requires exists i :: 0 <= i < |yearlyStats| && InEra(e, yearlyStats[i].year)
    requires forall i :: 0 <= i < |yearlyStats| && InEra(e, yearlyStats[i].year) ==>
      lo <= yearlyStats[i].tropicalNights <= hi
    ensures lo as real <= EraTropicalNights(yearlyStats, e) <= hi as real
  {
    var ys := Years(yearlyStats);
    var i :| 0 <= i < |yearlyStats| && InEra(e, yearlyStats[i].year);
    assert InEra(e, ys[i]);
    EraAverageBounded(ys, MapSeq(yearlyStats, NightsOf), e, lo as real, hi as real);
  }
}
