/**
 * The computations of the year-comparison chart
 * (src/components/charts/YearComparisonChart.tsx): the selected year's records
 * in calendar order, the per-`MM-DD` baseline (mean and population variance of
 * `max_temp` over 1995-2024 or over all years), the baseline and difference
 * series, the 7-day moving average, the month bands of the x axis, the
 * comparison and hot-day counters, and the three hottest days.
 */
module YearComparison {
  import opened Wrappers
  import opened Numeric
  import opened Strings
  import opened Seqs
  import opened Sorting
  import opened TemperatureTypes
  import opened ChartCommon
  import opened DailyAggregation

  // ---------------------------------------------------------------------------
  // The selected year

  /** `selectedMonth`, absent when it is `null` or `undefined`. */
  function InSelection(year: int, month: Option<int>): TemperatureData -> bool
  {
    (r: TemperatureData) => r.year == year && (month.None? || r.month == month.value)
  }

  /** `a.month !== b.month ? a.month - b.month : a.day - b.day`, as "a may come first". */
  function ByMonthDay(): (TemperatureData, TemperatureData) -> bool
  {
    (a: TemperatureData, b: TemperatureData) => a.month < b.month || (a.month == b.month && a.day <= b.day)
  }

  lemma ByMonthDayTotalPreorder()
    ensures TotalPreorder(ByMonthDay())
  {
  }

  /** `yearData`: the year's records (of the selected month, if any), sorted by month, then day. */
  function YearData(data: seq<TemperatureData>, year: int, month: Option<int>): seq<TemperatureData>
  {
    SortBy(Filter(data, InSelection(year, month)), ByMonthDay())
  }

  /**
   * The selection holds each record of the year (and month) as often as the
   * input does and nothing else, in calendar order.
   */
  lemma YearDataShape(data: seq<TemperatureData>, year: int, month: Option<int>)
    ensures var yd := YearData(data, year, month);
      && multiset(yd) == multiset(Filter(data, InSelection(year, month)))
      && (forall r :: r in yd <==> r in data && r.year == year && (month.None? || r.month == month.value))
      && Sorted(yd, ByMonthDay())
  {
    var sel := Filter(data, InSelection(year, month));
    var yd := YearData(data, year, month);
    FilterMembers(data, InSelection(year, month));
    assert multiset(yd) == multiset(sel);
    forall r
      ensures r in yd <==> r in sel
    {
      assert r in yd <==> r in multiset(yd);
      assert r in sel <==> r in multiset(sel);
    }
    ByMonthDayTotalPreorder();
    SortBySorted(sel, ByMonthDay());
  }

  // ---------------------------------------------------------------------------
  // The `MM-DD` key

  /** `${String(month).padStart(2, '0')}-${String(day).padStart(2, '0')}`. */
  function MonthDayKey(r: TemperatureData): string
  {
    Pad2(r.month) + "-" + Pad2(r.day)
  }

  /** Two-character fields around a separator can be read back. */
  lemma FieldsOfKey(x: string, y: string, u: string, v: string)
    requires |x| == 2 && |u| == 2
    requires x + "-" + y == u + "-" + v
    ensures x == u && y == v
  {
    var k := x + "-" + y;
    assert k[..2] == x && (u + "-" + v)[..2] == u;
    assert k[3..] == y && (u + "-" + v)[3..] == v;
  }

  /** A day of a real calendar: month and day below 100, so their keys have fixed width. */
  predicate KeyableDay(r: TemperatureData)
  {
    0 <= r.month < 100 && 0 <= r.day < 100
  }

  /** Within two-digit months and days, records share a key exactly when they share month and day. */
  lemma MonthDayKeyInjective(a: TemperatureData, b: TemperatureData)
    requires KeyableDay(a) && KeyableDay(b)
    ensures MonthDayKey(a) == MonthDayKey(b) <==> a.month == b.month && a.day == b.day
  {
    PaddedTwoDigits(a.month);
    PaddedTwoDigits(a.day);
    PaddedTwoDigits(b.month);
    PaddedTwoDigits(b.day);
    if MonthDayKey(a) == MonthDayKey(b) {
      FieldsOfKey(Pad2(a.month), Pad2(a.day), Pad2(b.month), Pad2(b.day));
    }
  }

  // ---------------------------------------------------------------------------
  // The baseline

  datatype ComparisonMode = ThirtyYears | AllYears

  function InThirtyYears(): TemperatureData -> bool
  {
    (r: TemperatureData) => 1995 <= r.year <= 2024
  }

  /** `normalPeriodData`: 1995-2024 in '30years' mode, every record otherwise. */
  function NormalPeriodData(data: seq<TemperatureData>, mode: ComparisonMode): seq<TemperatureData>
  {
    if mode == ThirtyYears then Filter(data, InThirtyYears()) else data
  }

  lemma NormalPeriodMembers(data: seq<TemperatureData>, mode: ComparisonMode)
    ensures forall r :: r in NormalPeriodData(data, mode) <==>
      r in data && (mode == ThirtyYears ==> 1995 <= r.year <= 2024)
  {
    FilterMembers(data, InThirtyYears());
  }

  /**
   * The `values` list of a calendar day: the `max_temp` of each baseline record
   * of that month and day, in order. The code keys `normalValues` by the `MM-DD`
   * string; the model keys it by the (month, day) pair, which groups the same
   * records (SameGroupsAsStringKey).
   */
  function BaselineSample(data: seq<TemperatureData>, mode: ComparisonMode, k: (int, int)): seq<real>
  {
    MaxTemps(Group(NormalPeriodData(data, mode), DayKey, k))
  }

  /** The days of `normalValues`, in insertion order. */
  function BaselineKeys(data: seq<TemperatureData>, mode: ComparisonMode): seq<(int, int)>
  {
    DistinctKeys(NormalPeriodData(data, mode), DayKey)
  }

  /** Grouping by the `MM-DD` string puts together exactly the records of one (month, day). */
  lemma SameGroupsAsStringKey(s: seq<TemperatureData>, r: TemperatureData)
    requires forall i :: 0 <= i < |s| ==> KeyableDay(s[i])
    requires KeyableDay(r)
    ensures Group(s, MonthDayKey, MonthDayKey(r)) == Group(s, DayKey, DayKey(r))
  {
    forall i | 0 <= i < |s|
      ensures KeyIs(MonthDayKey, MonthDayKey(r))(s[i]) == KeyIs(DayKey, DayKey(r))(s[i])
    {
      MonthDayKeyInjective(s[i], r);
      assert KeyIs(DayKey, DayKey(r))(s[i]) == (DayKey(s[i]) == DayKey(r));
      assert DayKey(s[i]) == (s[i].month, s[i].day) && DayKey(r) == (r.month, r.day);
      assert KeyIs(MonthDayKey, MonthDayKey(r))(s[i]) <==> MonthDayKey(s[i]) == MonthDayKey(r);
    }
    FilterCongruent(s, KeyIs(MonthDayKey, MonthDayKey(r)), KeyIs(DayKey, DayKey(r)));
  }

  /** `means[k]` and `variances[k]` are the mean and the population variance of the day's sample. */
  ghost predicate BaselineEntries(data: seq<TemperatureData>, mode: ComparisonMode,
                                   means: map<(int, int), real>, variances: map<(int, int), real>)
  {
    forall k :: k in means ==>
      k in variances
      && |BaselineSample(data, mode, k)| > 0
      && means[k] == Mean(BaselineSample(data, mode, k))
      && variances[k] == Variance(BaselineSample(data, mode, k))
  }

  /**
   * `averageNormalValues` and the squares of `standardDeviations`: for each day
   * present in the baseline period, the mean and the population variance of
   * its sample; no entry for a day without baseline records.
   */
  method Baseline(data: seq<TemperatureData>, mode: ComparisonMode)
    returns (means: map<(int, int), real>, variances: map<(int, int), real>)
    ensures forall k :: k in means <==> k in BaselineKeys(data, mode)
    ensures forall k :: k in variances <==> k in means
    ensures BaselineEntries(data, mode, means, variances)
  {
    var normal := NormalPeriodData(data, mode);
    var order, groups := GroupBy(normal, DayKey);
    var samples := map k | k in groups :: MaxTemps(groups[k]);
    means, variances := SampleStatistics(order, samples);
    forall k | k in order
      ensures |samples[k]| > 0 && samples[k] == BaselineSample(data, mode, k)
    {
      GroupNonEmpty(normal, DayKey, k);
    }
  }

  /**
   * The `Object.keys(normalValues).forEach` loop: for every key whose sample is
   * not empty, its mean and its population variance.
   */
  method SampleStatistics<K>(order: seq<K>, samples: map<K, seq<real>>)
    returns (means: map<K, real>, variances: map<K, real>)
    requires forall k :: k in order ==> k in samples
    ensures forall k :: k in means <==> k in order && |samples[k]| > 0
    ensures forall k :: k in variances <==> k in means
    ensures forall k :: k in means ==> means[k] == Mean(samples[k]) && variances[k] == Variance(samples[k])
  {
    means, variances := map[], map[];
    for i := 0 to |order|
      invariant forall k :: k in means <==> (exists j :: 0 <= j < i && order[j] == k) && |samples[k]| > 0
      invariant forall k :: k in variances <==> k in means
      invariant forall k :: k in means ==> means[k] == Mean(samples[k]) && variances[k] == Variance(samples[k])
    {
      var key := order[i];
      var values := samples[key];
      if |values| > 0 {
        means := means[key := Mean(values)];
        variances := variances[key := Variance(values)];
      }
    }
  }

  /** A day has a baseline exactly when some baseline-period record falls on it. */
  lemma BaselineKeysMembers(data: seq<TemperatureData>, mode: ComparisonMode, month: int, day: int)
    ensures (month, day) in BaselineKeys(data, mode) <==>
      exists r :: r in data && r.month == month && r.day == day
        && (mode == ThirtyYears ==> 1995 <= r.year <= 2024)
  {
    var normal := NormalPeriodData(data, mode);
    NormalPeriodMembers(data, mode);
    if (month, day) in BaselineKeys(data, mode) {
      var i :| 0 <= i < |normal| && DayKey(normal[i]) == (month, day);
      assert normal[i] in normal;
    }
  }

  /** With a single baseline record on a day, that day's standard deviation is 0. */
  lemma SingleSampleVariance(data: seq<TemperatureData>, mode: ComparisonMode, k: (int, int))
    requires |BaselineSample(data, mode, k)| == 1
    ensures Mean(BaselineSample(data, mode, k)) == BaselineSample(data, mode, k)[0]
    ensures Variance(BaselineSample(data, mode, k)) == 0.0
  {
    var xs := BaselineSample(data, mode, k);
    assert xs == [xs[0]];
    VarianceOfSingle(xs[0]);
  }

  // ---------------------------------------------------------------------------
  // The plotted series

  /** `averageNormalValues[monthDay] || 0`: the day's mean, or 0 when the day has none. */
  function NormalOf(means: map<(int, int), real>, r: TemperatureData): (n: real)
    ensures DayKey(r) in means ==> n == means[DayKey(r)]
    ensures DayKey(r) !in means ==> n == 0.0
  {
    if DayKey(r) in means then means[DayKey(r)] else 0.0
  }

  /**
   * `normal !== 0 ? d.max_temp - normal : null`: no difference for a day
   * without a baseline and for a day whose baseline mean is exactly 0.
   */
  function TempDifference(means: map<(int, int), real>, r: TemperatureData): (t: Option<real>)
    ensures t.None? <==> DayKey(r) !in means || means[DayKey(r)] == 0.0
    ensures t.Some? ==> t.value == r.max_temp - means[DayKey(r)]
  {
    var normal := NormalOf(means, r);
    if normal != 0.0 then Some(r.max_temp - normal) else None
  }

  function NormalSeries(yearData: seq<TemperatureData>, means: map<(int, int), real>): (ns: seq<real>)
    ensures |ns| == |yearData| && forall i :: 0 <= i < |yearData| ==> ns[i] == NormalOf(means, yearData[i])
  {
    seq(|yearData|, i requires 0 <= i < |yearData| => NormalOf(means, yearData[i]))
  }

  function TempDifferences(yearData: seq<TemperatureData>, means: map<(int, int), real>): (ds: seq<Option<real>>)
    ensures |ds| == |yearData| && forall i :: 0 <= i < |yearData| ==> ds[i] == TempDifference(means, yearData[i])
  {
    seq(|yearData|, i requires 0 <= i < |yearData| => TempDifference(means, yearData[i]))
  }

  /**
   * `tempDifferences.filter(d => d !== null)`: every present difference, as
   * often as it occurs, and nothing for the days without one.
   */
  function Present(ds: seq<Option<real>>): (xs: seq<real>)
    ensures |xs| == |ds| - multiset(ds)[None]
    ensures forall x :: multiset(xs)[x] == multiset(ds)[Some(x)]
    ensures forall x :: x in xs <==> Some(x) in ds
  {
    if |ds| == 0 then []
    else
      var init := ds[..|ds| - 1];
      assert ds == init + [ds[|ds| - 1]];
      assert forall o :: o in ds <==> o in init || o == ds[|ds| - 1];
      match ds[|ds| - 1]
      case Some(x) => Present(init) + [x]
      case None => Present(init)
  }

  /** The filter keeps the order of the days: the present values of a concatenation are those of each part, in turn. */
  lemma {:induction false} PresentAppend(a: seq<Option<real>>, b: seq<Option<real>>)
    ensures Present(a + b) == Present(a) + Present(b)
    decreases |b|
  {
    if |b| == 0 {
      assert a + b == a;
    } else {
      var b' := b[..|b| - 1];
      assert a + b == (a + b') + [b[|b| - 1]];
      assert (a + b)[..|a + b| - 1] == a + b';
      PresentAppend(a, b');
    }
  }

  /**
   * `avgDifference`: the mean of the present differences, 0 when there is
   * none; it lies between the smallest and the largest of them.
   */
  function AvgDifference(ds: seq<Option<real>>): (avg: real)
    ensures |Present(ds)| == 0 ==> avg == 0.0
    ensures |Present(ds)| > 0 ==> MinOf(Present(ds)) <= avg <= MaxOf(Present(ds))
  {
    MeanOrZero(Present(ds))
  }

  /**
   * `movingAverage7`, entry `i`: the mean of the year's maxima at indices
   * `max(0, i - 3)` to `min(n - 1, i + 3)`; a window of 1 to 7 days, and a
   * value between the smallest and the largest maximum in it.
   */
  lemma MovingAverage7At(yearData: seq<TemperatureData>, i: int)
    requires 0 <= i < |yearData|
    ensures |MovingAverage(MaxTemps(yearData), 3, 3)| == |yearData|
    ensures var w := Window(MaxTemps(yearData), i, 3, 3);
      && w == MaxTemps(yearData)[Max(0, i - 3)..Min(|yearData| - 1, i + 3) + 1]
      && 1 <= |w| <= 7
      && MinOf(w) <= MovingAverage(MaxTemps(yearData), 3, 3)[i] <= MaxOf(w)
  {
    var xs := MaxTemps(yearData);
    assert |xs| == |yearData|;
    MovingAverageAt(xs, 3, 3, i);
  }

  // ---------------------------------------------------------------------------
  // Month bands of the x axis

  datatype MonthRange = MonthRange(start: int, end: int, month: int)
  datatype MonthCenter = MonthCenter(position: int, month: int)

  /** The maximal runs of equal months, in order. */
  function Runs(ms: seq<int>): (rs: seq<MonthRange>)
    ensures |rs| == 0 <==> |ms| == 0
    ensures |rs| > 0 ==> rs[|rs| - 1].end == |ms| - 1 && rs[|rs| - 1].month == ms[|ms| - 1]
  {
    if |ms| == 0 then []
    else
      var rs := Runs(ms[..|ms| - 1]);
      var m := ms[|ms| - 1];
      if |rs| > 0 && rs[|rs| - 1].month == m then
        rs[..|rs| - 1] + [MonthRange(rs[|rs| - 1].start, |ms| - 1, m)]
      else
        rs + [MonthRange(|ms| - 1, |ms| - 1, m)]
  }

  /**
   * `rs` cuts the indices of `ms` into consecutive non-empty blocks, each of
   * one month, neighbours of different months.
   */
  ghost predicate RunsOf(ms: seq<int>, rs: seq<MonthRange>)
  {
    && (|rs| == 0 <==> |ms| == 0)
    && (|rs| > 0 ==> rs[0].start == 0 && rs[|rs| - 1].end == |ms| - 1)
    && (forall k :: 0 <= k < |rs| ==> 0 <= rs[k].start <= rs[k].end < |ms|)
    && (forall k :: 0 <= k < |rs| - 1 ==> rs[k + 1].start == rs[k].end + 1)
    && (forall k, i :: 0 <= k < |rs| && rs[k].start <= i <= rs[k].end ==> ms[i] == rs[k].month)
    && (forall k :: 0 <= k < |rs| - 1 ==> rs[k].month != rs[k + 1].month)
  }

  lemma {:induction false} RunsPartition(ms: seq<int>)
    ensures RunsOf(ms, Runs(ms))
  {
    if |ms| > 0 {
      var rs := Runs(ms[..|ms| - 1]);
      RunsPartition(ms[..|ms| - 1]);
      if |rs| > 0 && rs[|rs| - 1].month == ms[|ms| - 1] {
        RunsOfExtend(ms, rs);
      } else {
        RunsOfNew(ms, rs);
      }
    }
  }

  lemma RunsOfExtend(ms: seq<int>, rs: seq<MonthRange>)
    requires |ms| > 0 && RunsOf(ms[..|ms| - 1], rs) && |rs| > 0 && rs[|rs| - 1].month == ms[|ms| - 1]
    ensures RunsOf(ms, rs[..|rs| - 1] + [MonthRange(rs[|rs| - 1].start, |ms| - 1, ms[|ms| - 1])])
  {
    var init := ms[..|ms| - 1];
    var rs' := rs[..|rs| - 1] + [MonthRange(rs[|rs| - 1].start, |ms| - 1, ms[|ms| - 1])];
    assert forall k :: 0 <= k < |rs| - 1 ==> rs'[k] == rs[k];
    forall k, i | 0 <= k < |rs'| && rs'[k].start <= i <= rs'[k].end
      ensures ms[i] == rs'[k].month
    {
      if i < |init| {
        assert ms[i] == init[i];
      }
    }
  }

  lemma RunsOfNew(ms: seq<int>, rs: seq<MonthRange>)
    requires |ms| > 0 && RunsOf(ms[..|ms| - 1], rs) && (|rs| == 0 || rs[|rs| - 1].month != ms[|ms| - 1])
    ensures RunsOf(ms, rs + [MonthRange(|ms| - 1, |ms| - 1, ms[|ms| - 1])])
  {
    var init := ms[..|ms| - 1];
    var rs' := rs + [MonthRange(|ms| - 1, |ms| - 1, ms[|ms| - 1])];
    forall k, i | 0 <= k < |rs'| && rs'[k].start <= i <= rs'[k].end
      ensures ms[i] == rs'[k].month
    {
      if k < |rs| {
        assert ms[i] == init[i];
      }
    }
  }

  function CenterOf(r: MonthRange): MonthCenter
  {
    MonthCenter((r.start + r.end) / 2, r.month)
  }

  predicate NoZeroMonth(ms: seq<int>)
  {
    forall i :: 0 <= i < |ms| ==> ms[i] != 0
  }

  /** The closed runs and the run still open after the prefix `ms[..i]`. */
  ghost predicate BandsSoFar(ms: seq<int>, i: int, boundaries: seq<real>, ranges: seq<MonthRange>,
                             currentMonth: int, monthStart: int)
    requires 0 <= i <= |ms|
  {
    var rs := Runs(ms[..i]);
    && (i == 0 ==> ranges == [] && currentMonth == 0 && monthStart == 0)
    && (i > 0 ==>
          ranges == rs[..|rs| - 1] && currentMonth == rs[|rs| - 1].month && monthStart == rs[|rs| - 1].start)
    && |boundaries| == |ranges|
    && (forall k :: 0 <= k < |boundaries| ==> boundaries[k] == rs[k + 1].start as real - 0.5)
  }

  /** The first month opens the first run. */
  lemma BandsOpen(ms: seq<int>)
    requires |ms| > 0 && ms[0] != 0
    ensures BandsSoFar(ms, 1, [], [], ms[0], 0)
  {
    assert ms[..1][..0] == [];
  }

  /** A day of the open run's month extends it. */
  lemma BandsExtend(ms: seq<int>, i: int, boundaries: seq<real>, ranges: seq<MonthRange>,
                    currentMonth: int, monthStart: int)
    requires 0 < i < |ms|
    requires BandsSoFar(ms, i, boundaries, ranges, currentMonth, monthStart)
    requires ms[i] == currentMonth
    ensures BandsSoFar(ms, i + 1, boundaries, ranges, currentMonth, monthStart)
  {
    RunsStep(ms, i);
  }

  /** A day of another month closes the open run and opens a new one. */
  lemma BandsClose(ms: seq<int>, i: int, boundaries: seq<real>, ranges: seq<MonthRange>,
                   currentMonth: int, monthStart: int)
    requires 0 < i < |ms|
    requires BandsSoFar(ms, i, boundaries, ranges, currentMonth, monthStart)
    requires ms[i] != currentMonth
    ensures BandsSoFar(ms, i + 1, boundaries + [i as real - 0.5],
                       ranges + [MonthRange(monthStart, i - 1, currentMonth)], ms[i], i)
  {
    RunsStep(ms, i);
    var rs := Runs(ms[..i]);
    assert rs[..|rs| - 1] + [rs[|rs| - 1]] == rs;
  }

  /** After the last day the open run is pushed, giving all the runs. */
  lemma BandsFinish(ms: seq<int>, boundaries: seq<real>, ranges: seq<MonthRange>,
                    currentMonth: int, monthStart: int)
    requires |ms| > 0
    requires BandsSoFar(ms, |ms|, boundaries, ranges, currentMonth, monthStart)
    ensures ranges + [MonthRange(monthStart, |ms| - 1, currentMonth)] == Runs(ms)
    ensures |boundaries| == |ranges| && forall k :: 0 <= k < |boundaries| ==>
      boundaries[k] == Runs(ms)[k + 1].start as real - 0.5
  {
    assert ms[..|ms|] == ms;
    var rs := Runs(ms);
    assert rs[..|rs| - 1] + [rs[|rs| - 1]] == rs;
  }

  /**
   * The `yearData.forEach` loop over `d.month` with `currentMonth` and
   * `monthStart`, then the push of the last month: the bands are the runs of
   * equal months, a boundary sits half an index before each run but the first,
   * and each centre is the floor of the run's midpoint. Month 0 is the loop's
   * "no month yet" marker, so the runs are only promised without month 0.
   */
  method MonthBands(ms: seq<int>) returns (boundaries: seq<real>, ranges: seq<MonthRange>, centers: seq<MonthCenter>)
    ensures NoZeroMonth(ms) ==> ranges == Runs(ms)
    ensures NoZeroMonth(ms) ==> |boundaries| == (if |ms| == 0 then 0 else |ranges| - 1)
    ensures NoZeroMonth(ms) ==> forall k :: 0 <= k < |boundaries| ==> boundaries[k] == ranges[k + 1].start as real - 0.5
    ensures |centers| == |ranges| && forall k :: 0 <= k < |ranges| ==> centers[k] == CenterOf(ranges[k])
  {
    boundaries, ranges, centers := [], [], [];
    var currentMonth, monthStart := 0, 0;
    for index := 0 to |ms|
      invariant NoZeroMonth(ms) ==> BandsSoFar(ms, index, boundaries, ranges, currentMonth, monthStart)
      invariant |centers| == |ranges| && forall k :: 0 <= k < |ranges| ==> centers[k] == CenterOf(ranges[k])
    {
      if NoZeroMonth(ms) {
        if index == 0 {
          BandsOpen(ms);
        } else if ms[index] == currentMonth {
          BandsExtend(ms, index, boundaries, ranges, currentMonth, monthStart);
        } else {
          BandsClose(ms, index, boundaries, ranges, currentMonth, monthStart);
        }
      }
      if ms[index] != currentMonth {
        if currentMonth != 0 {
          boundaries := boundaries + [index as real - 0.5];
          var monthEnd := index - 1;
          ranges := ranges + [MonthRange(monthStart, monthEnd, currentMonth)];
          centers := centers + [MonthCenter((monthStart + monthEnd) / 2, currentMonth)];
        }
        currentMonth := ms[index];
        monthStart := index;
      }
    }
    if |ms| > 0 {
      if NoZeroMonth(ms) {
        BandsFinish(ms, boundaries, ranges, currentMonth, monthStart);
      }
      var monthEnd := |ms| - 1;
      ranges := ranges + [MonthRange(monthStart, monthEnd, currentMonth)];
      centers := centers + [MonthCenter((monthStart + monthEnd) / 2, currentMonth)];
    }
  }

  /** How the runs grow by one month. */
  lemma RunsStep(ms: seq<int>, i: int)
    requires 0 <= i < |ms|
    ensures var rs, rs' := Runs(ms[..i]), Runs(ms[..i + 1]);
      && (|rs| > 0 && rs[|rs| - 1].month == ms[i] ==>
            rs' == rs[..|rs| - 1] + [MonthRange(rs[|rs| - 1].start, i, ms[i])])
      && (!(|rs| > 0 && rs[|rs| - 1].month == ms[i]) ==> rs' == rs + [MonthRange(i, i, ms[i])])
  {
    assert ms[..i + 1][..i] == ms[..i];
  }

  // ---------------------------------------------------------------------------
  // Comparison with the baseline, hot-day counts

  datatype ComparisonStats = ComparisonStats(
    above: nat, below: nat, equal: nat, aboveHigh: nat, belowLow: nat, total: nat)

  datatype TemperatureStats = TemperatureStats(extremeHot: nat, veryHot: nat, hotSummer: nat, total: nat)

  /** `normalMean !== undefined && normalStdDev !== undefined`. */
  function HasBaseline(means: map<(int, int), real>, variances: map<(int, int), real>): TemperatureData -> bool
  {
    (r: TemperatureData) => DayKey(r) in means && DayKey(r) in variances
  }

  /** `diff = d.max_temp - normalMean` on a day with a baseline. */
  function Diff(means: map<(int, int), real>, r: TemperatureData): real
    requires DayKey(r) in means
  {
    r.max_temp - means[DayKey(r)]
  }

  /** `Math.abs(diff) < 0.1`: counted as equal, whatever the sign. */
  function IsEqual(means: map<(int, int), real>, variances: map<(int, int), real>): TemperatureData -> bool
  {
    (r: TemperatureData) => HasBaseline(means, variances)(r) && -0.1 < Diff(means, r) < 0.1
  }

  function IsAbove(means: map<(int, int), real>, variances: map<(int, int), real>): TemperatureData -> bool
  {
    (r: TemperatureData) => HasBaseline(means, variances)(r) && !(-0.1 < Diff(means, r) < 0.1) && Diff(means, r) > 0.0
  }

  function IsBelow(means: map<(int, int), real>, variances: map<(int, int), real>): TemperatureData -> bool
  {
    (r: TemperatureData) => HasBaseline(means, variances)(r) && !(-0.1 < Diff(means, r) < 0.1) && Diff(means, r) <= 0.0
  }

  /**
   * `diff >= 2 * normalStdDev` above the baseline; with `diff > 0` and the
   * standard deviation the square root of the variance, this is
   * `diff * diff >= 4 * variance` (Numeric.TwoSigmaBySquares).
   */
  function IsAboveHigh(means: map<(int, int), real>, variances: map<(int, int), real>): TemperatureData -> bool
  {
    (r: TemperatureData) => HasBaseline(means, variances)(r) && IsAbove(means, variances)(r)
      && Diff(means, r) * Diff(means, r) >= 4.0 * variances[DayKey(r)]
  }

  /** `diff <= -2 * normalStdDev` below the baseline, by squares. */
  function IsBelowLow(means: map<(int, int), real>, variances: map<(int, int), real>): TemperatureData -> bool
  {
    (r: TemperatureData) => HasBaseline(means, variances)(r) && IsBelow(means, variances)(r)
      && Diff(means, r) * Diff(means, r) >= 4.0 * variances[DayKey(r)]
  }

  /** `c` holds the counts over the days `ds`. */
  ghost predicate CountsOver(ds: seq<TemperatureData>, means: map<(int, int), real>, variances: map<(int, int), real>,
                             c: ComparisonStats)
  {
    && c.total == |Filter(ds, HasBaseline(means, variances))|
    && c.equal == |Filter(ds, IsEqual(means, variances))|
    && c.above == |Filter(ds, IsAbove(means, variances))|
    && c.below == |Filter(ds, IsBelow(means, variances))|
    && c.aboveHigh == |Filter(ds, IsAboveHigh(means, variances))|
    && c.belowLow == |Filter(ds, IsBelowLow(means, variances))|
  }

  /**
   * `yearData.forEach` loop that fills `temperatureStats` and
   * `comparisonStats`. Each counter is the number of the year's days in its
   * class.
   */
  method DayStatistics(yearData: seq<TemperatureData>, means: map<(int, int), real>, variances: map<(int, int), real>)
    returns (temps: TemperatureStats, comparison: ComparisonStats)
    ensures temps.total == |yearData|
    ensures temps.extremeHot == |Filter(yearData, InBucket(ExtremeHot))|
    ensures temps.veryHot == |Filter(yearData, InBucket(VeryHot))|
    ensures temps.hotSummer == |Filter(yearData, InBucket(HotSummer))|
    ensures CountsOver(yearData, means, variances, comparison)
  {
    var extremeHot, veryHot, hotSummer := CountBuckets(yearData);
    temps := TemperatureStats(extremeHot, veryHot, hotSummer, |yearData|);
    comparison := ComparisonStats(0, 0, 0, 0, 0, 0);
    for i := 0 to |yearData|
      invariant CountsOver(yearData[..i], means, variances, comparison)
    {
      ComparisonStep(yearData, means, variances, i);
      comparison := CompareDay(comparison, yearData[i], means, variances);
    }
    assert yearData[..|yearData|] == yearData;
  }

  /** One day of the comparison: the `if (normalMean !== undefined …)` block. */
  method CompareDay(c: ComparisonStats, d: TemperatureData, means: map<(int, int), real>, variances: map<(int, int), real>)
    returns (c': ComparisonStats)
    ensures c'.total == c.total + (if HasBaseline(means, variances)(d) then 1 else 0)
    ensures c'.equal == c.equal + (if IsEqual(means, variances)(d) then 1 else 0)
    ensures c'.above == c.above + (if IsAbove(means, variances)(d) then 1 else 0)
    ensures c'.below == c.below + (if IsBelow(means, variances)(d) then 1 else 0)
    ensures c'.aboveHigh == c.aboveHigh + (if IsAboveHigh(means, variances)(d) then 1 else 0)
    ensures c'.belowLow == c.belowLow + (if IsBelowLow(means, variances)(d) then 1 else 0)
  {
    c' := c;
    var key := DayKey(d);
    if key in means && key in variances {
      c' := c'.(total := c'.total + 1);
      var diff := d.max_temp - means[key];
      if -0.1 < diff < 0.1 {
        c' := c'.(equal := c'.equal + 1);
      } else if diff > 0.0 {
        c' := c'.(above := c'.above + 1);
        if diff * diff >= 4.0 * variances[key] {
          c' := c'.(aboveHigh := c'.aboveHigh + 1);
        }
      } else {
        c' := c'.(below := c'.below + 1);
        if diff * diff >= 4.0 * variances[key] {
          c' := c'.(belowLow := c'.belowLow + 1);
        }
      }
    }
  }

  /** How one more day changes each count. */
  lemma ComparisonStep(yearData: seq<TemperatureData>, means: map<(int, int), real>, variances: map<(int, int), real>, i: int)
    requires 0 <= i < |yearData|
    ensures var d, pre, post := yearData[i], yearData[..i], yearData[..i + 1];
      && |Filter(post, HasBaseline(means, variances))|
         == |Filter(pre, HasBaseline(means, variances))| + (if HasBaseline(means, variances)(d) then 1 else 0)
      && |Filter(post, IsEqual(means, variances))|
         == |Filter(pre, IsEqual(means, variances))| + (if IsEqual(means, variances)(d) then 1 else 0)
      && |Filter(post, IsAbove(means, variances))|
         == |Filter(pre, IsAbove(means, variances))| + (if IsAbove(means, variances)(d) then 1 else 0)
      && |Filter(post, IsBelow(means, variances))|
         == |Filter(pre, IsBelow(means, variances))| + (if IsBelow(means, variances)(d) then 1 else 0)
      && |Filter(post, IsAboveHigh(means, variances))|
         == |Filter(pre, IsAboveHigh(means, variances))| + (if IsAboveHigh(means, variances)(d) then 1 else 0)
      && |Filter(post, IsBelowLow(means, variances))|
         == |Filter(pre, IsBelowLow(means, variances))| + (if IsBelowLow(means, variances)(d) then 1 else 0)
  {
    FilterPrefixStep(yearData, HasBaseline(means, variances), i);
    FilterPrefixStep(yearData, IsEqual(means, variances), i);
    FilterPrefixStep(yearData, IsAbove(means, variances), i);
    FilterPrefixStep(yearData, IsBelow(means, variances), i);
    FilterPrefixStep(yearData, IsAboveHigh(means, variances), i);
    FilterPrefixStep(yearData, IsBelowLow(means, variances), i);
  }

  /**
   * The classes split the days with a baseline: above + below + equal = total,
   * and the 2σ days are among the days above and below.
   */
  lemma ComparisonCountsAddUp(yearData: seq<TemperatureData>, means: map<(int, int), real>,
                              variances: map<(int, int), real>, c: ComparisonStats)
    requires CountsOver(yearData, means, variances, c)
    ensures c.above + c.below + c.equal == c.total <= |yearData|
    ensures c.aboveHigh <= c.above && c.belowLow <= c.below
  {
    FilterCountPartition(yearData, HasBaseline(means, variances),
      IsAbove(means, variances), IsBelow(means, variances), IsEqual(means, variances));
    FilterCountMonotone(yearData, IsAboveHigh(means, variances), IsAbove(means, variances));
    FilterCountMonotone(yearData, IsBelowLow(means, variances), IsBelow(means, variances));
  }

  /** The hot-day buckets of the selected year are exclusive: together at most its number of days. */
  lemma TemperatureCountsBound(yearData: seq<TemperatureData>, t: TemperatureStats)
    requires t.total == |yearData|
    requires t.extremeHot == |Filter(yearData, InBucket(ExtremeHot))|
    requires t.veryHot == |Filter(yearData, InBucket(VeryHot))|
    requires t.hotSummer == |Filter(yearData, InBucket(HotSummer))|
    ensures t.extremeHot + t.veryHot + t.hotSummer <= t.total
  {
    BucketCounts(yearData);
  }

  /**
   * With `stdDev` the square root of the variance, the squared tests are the
   * code's `diff >= 2 * stdDev` and `diff <= -2 * stdDev`.
   */
  lemma TwoSigmaClasses(means: map<(int, int), real>, variances: map<(int, int), real>, r: TemperatureData, stdDev: real)
    requires HasBaseline(means, variances)(r)
    requires stdDev >= 0.0 && variances[DayKey(r)] == stdDev * stdDev
    ensures IsAbove(means, variances)(r) ==> (IsAboveHigh(means, variances)(r) <==> Diff(means, r) >= 2.0 * stdDev)
    ensures IsBelow(means, variances)(r) ==> (IsBelowLow(means, variances)(r) <==> Diff(means, r) <= -2.0 * stdDev)
  {
    var d := Diff(means, r);
    if IsAbove(means, variances)(r) {
      TwoSigmaBySquares(d, stdDev);
    }
    if IsBelow(means, variances)(r) {
      TwoSigmaBySquares(-d, stdDev);
      assert (-d) * (-d) == d * d;
    }
  }

  /**
   * With the maps of `Baseline`, `total` counts exactly the days of the year
   * on whose month and day the baseline period has a record.
   */
  lemma ComparedDays(data: seq<TemperatureData>, mode: ComparisonMode, means: map<(int, int), real>,
                     variances: map<(int, int), real>, r: TemperatureData)
    requires forall k :: k in means <==> k in BaselineKeys(data, mode)
    requires forall k :: k in variances <==> k in means
    ensures HasBaseline(means, variances)(r) <==>
      exists s :: s in data && s.month == r.month && s.day == r.day
        && (mode == ThirtyYears ==> 1995 <= s.year <= 2024)
  {
    BaselineKeysMembers(data, mode, r.month, r.day);
  }

  // ---------------------------------------------------------------------------
  // The three hottest days

  datatype TopDay = TopDay(date: string, temp: real, month: int, day: int)

  function ToTopDay(r: TemperatureData): TopDay
  {
    TopDay(DateLabel(r.month, r.day), r.max_temp, r.month, r.day)
  }

  function TempOf(t: TopDay): real { t.temp }

  /** `yearData.map(…).sort((a, b) => b.temp - a.temp).slice(0, 3)`. */
  function Top3(yearData: seq<TemperatureData>): seq<TopDay>
  {
    Take(SortBy(MapSeq(yearData, ToTopDay), ByRealKeyDesc(TempOf)), 3)
  }

  /**
   * The list has min(3, n) days, hottest first, taken from the year's days, and
   * no day left out is hotter than a day chosen.
   */
  lemma Top3Shape(yearData: seq<TemperatureData>)
    ensures var top, all := Top3(yearData), MapSeq(yearData, ToTopDay);
      && |top| == (if |yearData| < 3 then |yearData| else 3)
      && Sorted(top, ByRealKeyDesc(TempOf))
      && multiset(top) <= multiset(all)
      && forall i, y :: 0 <= i < |top| && y in multiset(all) - multiset(top) ==> ByRealKeyDesc(TempOf)(top[i], y)
  {
    ByRealKeyDescTotalPreorder(TempOf);
    TopN(MapSeq(yearData, ToTopDay), ByRealKeyDesc(TempOf), 3);
  }
}
