/**
 * The forecast pages' helpers (src/app/weather/page.tsx,
 * src/components/WeatherDetailModal.tsx, src/components/WeekWeatherSection.tsx,
 * src/app/week/page.tsx): the weather icon, the `MM-DD` key of a record and of
 * a forecast date, the historical averages for a forecast day, the parsing of
 * the API's temperatures, the ≥ 2 °C anomaly flags and the day labels.
 *
 * `Number(celsius)` is a library conversion; it is the parameter `toNumber`.
 */
module Forecast {
  import opened Wrappers
  import opened Numeric
  import opened Strings
  import opened Seqs
  import opened TemperatureTypes

  // ---------------------------------------------------------------------------
  // The API's forecast object (weather.tsukumijima.net)

  datatype CelsiusField = CelsiusField(celsius: Option<string>)
  datatype ApiTemperature = ApiTemperature(min: Option<CelsiusField>, max: Option<CelsiusField>)
  datatype Detail = Detail(weather: Option<string>, wind: Option<string>, wave: Option<string>)
  datatype ChanceOfRain = ChanceOfRain(t00_06: string, t06_12: string, t12_18: string, t18_24: string)
  datatype Image = Image(title: string, url: string)

  /**
   * One element of `forecasts`. Members the API may omit or set to `null`
   * are optional.
   */
  datatype ApiForecast = ApiForecast(
    date: string, dateLabel: string, temperature: Option<ApiTemperature>, telop: Option<string>,
    detail: Option<Detail>, chanceOfRain: Option<ChanceOfRain>, image: Option<Image>)

  /** `f.temperature?.max?.celsius`. */
  function MaxCelsius(f: ApiForecast): (c: Option<string>)
    ensures c.Some? <==> f.temperature.Some? && f.temperature.value.max.Some? && f.temperature.value.max.value.celsius.Some?
  {
    if f.temperature.Some? && f.temperature.value.max.Some? then f.temperature.value.max.value.celsius else None
  }

  /** `f.temperature?.min?.celsius`. */
  function MinCelsius(f: ApiForecast): (c: Option<string>)
    ensures c.Some? <==> f.temperature.Some? && f.temperature.value.min.Some? && f.temperature.value.min.value.celsius.Some?
  {
    if f.temperature.Some? && f.temperature.value.min.Some? then f.temperature.value.min.value.celsius else None
  }

  // ---------------------------------------------------------------------------
  // Weather icon

  datatype WeatherInfo = WeatherInfo(weatherLabel: string, icon: string)

  /** The characters the icon is chosen by, in the order they are looked for. */
  const IconChars: seq<char> := ['晴', '曇', '雨', '雪']

  /** `getWeatherInfo`: the label (`weatherLabel`) is the telop; the icon is the first of 晴, 曇, 雨, 雪 it contains, else 天気. */
  function GetWeatherInfo(telop: string): (w: WeatherInfo)
    ensures w.weatherLabel == telop
    ensures w.icon == "天気" <==> '晴' !in telop && '曇' !in telop && '雨' !in telop && '雪' !in telop
    ensures w.icon == "天気" || (|w.icon| == 1 && w.icon[0] in telop)
  {
    if '晴' in telop then WeatherInfo(telop, "晴")
    else if '曇' in telop then WeatherInfo(telop, "曇")
    else if '雨' in telop then WeatherInfo(telop, "雨")
    else if '雪' in telop then WeatherInfo(telop, "雪")
    else WeatherInfo(telop, "天気")
  }

  function InTelop(telop: string): char -> bool
  {
    (c: char) => c in telop
  }

  /** The icon is the first icon character, in test order, that the telop contains. */
  lemma WeatherIconIsFirstMatch(telop: string)
    ensures GetWeatherInfo(telop).icon ==
      match FindFirst(IconChars, InTelop(telop))
      case Some(c) => [c]
      case None => "天気"
  {
    var s := IconChars;
    assert s[1..] == ['曇', '雨', '雪'] && s[1..][1..] == ['雨', '雪'] && s[1..][1..][1..] == ['雪'];
    assert s[1..][1..][1..][1..] == [];
  }

  // ---------------------------------------------------------------------------
  // Keys of the historical lookup

  /**
   * `getMMDDfromDateStr`: for a date written `y/m/d`, the month and the day
   * padded to two characters and joined by `-`; "" when the string does not
   * split into exactly three `/` pieces.
   */
  function RecordKey(dateStr: string): (k: string)
    ensures k == "" <==> |Split(dateStr, '/')| != 3
    ensures k != "" ==> k == PadStart(Split(dateStr, '/')[1], 2, '0') + "-" + PadStart(Split(dateStr, '/')[2], 2, '0')
  {
    var parts := Split(dateStr, '/');
    if |parts| != 3 then ""
    else
      var m := PadStart(parts[1], 2, '0');
      var d := PadStart(parts[2], 2, '0');
      m + "-" + d
  }

  /** `date.slice(5, 7) + "-" + date.slice(8, 10)` for a forecast date `yyyy-MM-dd`. */
  function ForecastKey(date: string): (k: string)
    ensures |k| <= 5
  {
    Slice(date, 5, 7) + "-" + Slice(date, 8, 10)
  }

  function DateKeyOf(r: TemperatureData): string { RecordKey(r.date) }

  /** The source files write a record's date as `y/m/d` without padding. */
  function RecordDate(year: nat, month: nat, day: nat): string
  {
    IntToString(year) + "/" + IntToString(month) + "/" + IntToString(day)
  }

  /** The API writes a forecast date as `yyyy-MM-dd`. */
  function IsoDate(year: nat, month: nat, day: nat): string
  {
    IntToString(year) + "-" + Pad2(month) + "-" + Pad2(day)
  }

  lemma DigitsHaveNoSlash(s: string)
    requires AllDigits(s)
    ensures '/' !in s
  {
    forall i | 0 <= i < |s|
      ensures s[i] != '/'
    {
      assert IsDigit(s[i]);
    }
  }

  /** A record's `y/m/d` gives `MM-dd`. */
  lemma RecordKeyOfDate(year: nat, month: nat, day: nat)
    requires month < 100 && day < 100
    ensures RecordKey(RecordDate(year, month, day)) == Pad2(month) + "-" + Pad2(day)
  {
    var ys, ms, ds := IntToString(year), IntToString(month), IntToString(day);
    DigitsHaveNoSlash(ys);
    DigitsHaveNoSlash(ms);
    DigitsHaveNoSlash(ds);
    var parts := [ys, ms, ds];
    assert Join(parts[..2], '/') == ys + "/" + ms;
    assert Join(parts, '/') == RecordDate(year, month, day);
    SplitJoin(parts, '/');
  }

  /** A forecast's `yyyy-MM-dd` gives `MM-dd`. */
  lemma ForecastKeyOfDate(year: nat, month: nat, day: nat)
    requires month < 100 && day < 100
    requires 1000 <= year <= 9999
    ensures ForecastKey(IsoDate(year, month, day)) == Pad2(month) + "-" + Pad2(day)
  {
    var y, m, d := IntToString(year), Pad2(month), Pad2(day);
    PaddedTwoDigits(month);
    PaddedTwoDigits(day);
    assert Pow10(3) == 1000 && Pow10(4) == 10000;
    NatToStringLength(year, 4);
    FieldsAt(y + "-", m, "-" + d);
    FieldsAt(y + "-" + m + "-", d, "");
    assert IsoDate(year, month, day) == (y + "-") + m + ("-" + d) == (y + "-" + m + "-") + d + "";
  }

  /** The middle part of a concatenation is the slice at its offset. */
  lemma FieldsAt(a: string, b: string, c: string)
    ensures (a + b + c)[|a|..|a| + |b|] == b
  {
  }

  /**
   * A record and a forecast of the same month and day meet under one key: the
   * record's `y/m/d` and the forecast's `yyyy-MM-dd` both give `MM-dd`.
   */
  lemma RecordAndForecastKeysAgree(year: nat, month: nat, day: nat, forecastYear: nat)
    requires month < 100 && day < 100
    requires 1000 <= forecastYear <= 9999
    ensures RecordKey(RecordDate(year, month, day)) == ForecastKey(IsoDate(forecastYear, month, day))
  {
    RecordKeyOfDate(year, month, day);
    ForecastKeyOfDate(forecastYear, month, day);
  }

  // ---------------------------------------------------------------------------
  // Historical averages

  /**
   * The `for (const d of rawData)` loop filling `historicalByDate`: every
   * record under its key, in input order.
   */
  method HistoricalByDate(rawData: seq<TemperatureData>) returns (byDate: map<string, seq<TemperatureData>>)
    ensures forall k :: k in byDate <==> exists i :: 0 <= i < |rawData| && DateKeyOf(rawData[i]) == k
    ensures forall k :: k in byDate ==> byDate[k] == Group(rawData, DateKeyOf, k)
  {
    var order;
    order, byDate := GroupBy(rawData, DateKeyOf);
  }

  datatype HistoricalData = HistoricalData(avgMax: Option<real>, avgMin: Option<real>, count: nat)

  function RecordsFor(byDate: map<string, seq<TemperatureData>>, date: string): seq<TemperatureData>
  {
    var md := ForecastKey(date);
    if md in byDate then byDate[md] else []
  }

  /**
   * `getHistoricalData(date)`: the mean maximum and minimum of the records
   * under the forecast's key, `null` when there are none, and their number.
   */
  function GetHistoricalData(byDate: map<string, seq<TemperatureData>>, date: string): (h: HistoricalData)
    ensures h.count == |RecordsFor(byDate, date)|
    ensures h.avgMax.None? <==> h.count == 0
    ensures h.avgMin.None? <==> h.count == 0
    ensures h.avgMax.Some? ==>
      MinOf(MaxTemps(RecordsFor(byDate, date))) <= h.avgMax.value <= MaxOf(MaxTemps(RecordsFor(byDate, date)))
    ensures h.avgMin.Some? ==>
      MinOf(MinTemps(RecordsFor(byDate, date))) <= h.avgMin.value <= MaxOf(MinTemps(RecordsFor(byDate, date)))
  {
    var records := RecordsFor(byDate, date);
    if |records| > 0 then HistoricalData(Some(Mean(MaxTemps(records))), Some(Mean(MinTemps(records))), |records|)
    else HistoricalData(None, None, 0)
  }

  /**
   * With the grouping of HistoricalByDate, the averages are missing exactly
   * when no record has the forecast's key, and `count` is the number of
   * records that do.
   */
  lemma HistoricalOfGrouping(rawData: seq<TemperatureData>, byDate: map<string, seq<TemperatureData>>, date: string)
    requires forall k :: k in byDate <==> exists i :: 0 <= i < |rawData| && DateKeyOf(rawData[i]) == k
    requires forall k :: k in byDate ==> byDate[k] == Group(rawData, DateKeyOf, k)
    ensures GetHistoricalData(byDate, date).avgMax.None? <==>
      forall i :: 0 <= i < |rawData| ==> DateKeyOf(rawData[i]) != ForecastKey(date)
    ensures GetHistoricalData(byDate, date).count == |Group(rawData, DateKeyOf, ForecastKey(date))|
  {
    var md := ForecastKey(date);
    if md in byDate {
      var i :| 0 <= i < |rawData| && DateKeyOf(rawData[i]) == md;
      GroupMembers(rawData, DateKeyOf, md);
      assert rawData[i] in Group(rawData, DateKeyOf, md);
    } else {
      GroupAbsent(rawData, DateKeyOf, md);
    }
  }

  /**
   * Every record lands in the bucket of its own key, and the buckets together
   * hold each record once: their sizes add up to the number of records.
   */
  lemma HistoricalBucketsCoverAll(rawData: seq<TemperatureData>, byDate: map<string, seq<TemperatureData>>)
    requires forall k :: k in byDate <==> exists i :: 0 <= i < |rawData| && DateKeyOf(rawData[i]) == k
    requires forall k :: k in byDate ==> byDate[k] == Group(rawData, DateKeyOf, k)
    ensures forall i :: 0 <= i < |rawData| ==>
      DateKeyOf(rawData[i]) in byDate && rawData[i] in byDate[DateKeyOf(rawData[i])]
    ensures GroupSizes(rawData, DateKeyOf, DistinctKeys(rawData, DateKeyOf)) == |rawData|
  {
    forall i | 0 <= i < |rawData|
      ensures DateKeyOf(rawData[i]) in byDate && rawData[i] in byDate[DateKeyOf(rawData[i])]
    {
      GroupMembers(rawData, DateKeyOf, DateKeyOf(rawData[i]));
    }
    GroupSizesSum(rawData, DateKeyOf);
  }

  /** `weekDates.map(date => …)`: one entry per forecast date, in order. */
  function HistoricalAverages(dates: seq<string>, byDate: map<string, seq<TemperatureData>>): (hs: seq<HistoricalData>)
    ensures |hs| == |dates|
    ensures forall i :: 0 <= i < |dates| ==> hs[i] == GetHistoricalData(byDate, dates[i])
  {
    MapSeq(dates, (date: string) => GetHistoricalData(byDate, date))
  }

  // ---------------------------------------------------------------------------
  // Temperatures of a forecast

  /** `celsius ? Number(celsius) : null`: nothing for a missing, `null` or empty string. */
  function TruthyTemp(c: Option<string>, toNumber: string -> real): (t: Option<real>)
    ensures t.None? <==> c.None? || c.value == ""
    ensures t.Some? ==> t.value == toNumber(c.value)
  {
    if c.Some? && c.value != "" then Some(toNumber(c.value)) else None
  }

  /** `celsius !== null ? Number(celsius) : null` (src/app/week/page.tsx): an empty string is converted too. */
  function NotNullTemp(c: Option<string>, toNumber: string -> real): (t: Option<real>)
    ensures t.None? <==> c.None?
    ensures t.Some? ==> t.value == toNumber(c.value)
  {
    if c.Some? then Some(toNumber(c.value)) else None
  }

  /** The two parsings differ on exactly one input, the empty string. */
  lemma TempParsingsDiffer(c: Option<string>, toNumber: string -> real)
    ensures TruthyTemp(c, toNumber) != NotNullTemp(c, toNumber) <==> c == Some("")
  {
    if c == Some("") {
      assert NotNullTemp(c, toNumber).Some?;
    }
  }

  /** `minTemp !== null ? minTemp >= 25 : false`. */
  function TropicalFlag(minTemp: Option<real>): (b: bool)
    ensures b <==> minTemp.Some? && minTemp.value >= 25.0
  {
    if minTemp.Some? then minTemp.value >= 25.0 else false
  }

  /** The `WeatherForecast` built from one API forecast, with the given parsing of `celsius`. */
  function ToWeatherForecast(f: ApiForecast, parse: Option<string> -> Option<real>): (w: WeatherForecast)
    ensures w.date == f.date
    ensures w.max_temp == parse(MaxCelsius(f)) && w.min_temp == parse(MinCelsius(f))
    ensures w.telop == Some(f.telop.GetOr(""))
    ensures w.is_tropical_night == Some(w.min_temp.Some? && w.min_temp.value >= 25.0)
    ensures w.weather_code == 0 && w.temp_anomaly_max == 0.0 && w.temp_anomaly_min == 0.0
  {
    var minTemp := parse(MinCelsius(f));
    WeatherForecast(f.date, parse(MaxCelsius(f)), minTemp, 0, 0.0, 0.0, Some(f.telop.GetOr("")), Some(TropicalFlag(minTemp)))
  }

  /** The truthiness test of src/components/WeekWeatherSection.tsx. */
  function Truthy(toNumber: string -> real): Option<string> -> Option<real>
  {
    (c: Option<string>) => TruthyTemp(c, toNumber)
  }

  /** The `!== null` test of src/app/week/page.tsx. */
  function NotNull(toNumber: string -> real): Option<string> -> Option<real>
  {
    (c: Option<string>) => NotNullTemp(c, toNumber)
  }

  /**
   * `(data.forecasts || []).map(f => …)`: one forecast per API forecast, in
   * order, its temperatures parsed by `parse`, a tropical night exactly when
   * the minimum is known and at least 25 °C.
   */
  function ConvertForecasts(fs: seq<ApiForecast>, parse: Option<string> -> Option<real>): (ws: seq<WeatherForecast>)
    ensures |ws| == |fs|
    ensures forall i :: 0 <= i < |fs| ==> ws[i] == ToWeatherForecast(fs[i], parse)
  {
    MapSeq(fs, (f: ApiForecast) => ToWeatherForecast(f, parse))
  }

  // ---------------------------------------------------------------------------
  // Anomaly flags and labels

  /** `a !== null && b !== null ? a - b : null`. */
  function TempDiff(forecast: Option<real>, historical: Option<real>): (d: Option<real>)
    ensures d.None? <==> forecast.None? || historical.None?
    ensures d.Some? ==> d.value == forecast.value - historical.value
  {
    if forecast.Some? && historical.Some? then Some(forecast.value - historical.value) else None
  }

  /** `diff !== null && diff >= 2`. */
  function IsAbnormal(diff: Option<real>): (b: bool)
    ensures b <==> diff.Some? && diff.value >= 2.0
  {
    diff.Some? && diff.value >= 2.0
  }

  /** src/components/WeekWeatherSection.tsx's form: `h !== null && f !== null && f - h >= 2`. */
  function IsAbnormalDirect(forecast: Option<real>, historical: Option<real>): bool
  {
    historical.Some? && forecast.Some? && forecast.value - historical.value >= 2.0
  }

  /** The two spellings of the anomaly rule agree on every input. */
  lemma AbnormalRulesAgree(forecast: Option<real>, historical: Option<real>)
    ensures IsAbnormal(TempDiff(forecast, historical)) == IsAbnormalDirect(forecast, historical)
  {
    if forecast.Some? && historical.Some? {
      assert TempDiff(forecast, historical).value == forecast.value - historical.value;
    }
  }

  /**
   * The five-tier label of the weather page and the detail modal. Exactly one
   * case holds, so the labels exclude each other.
   */
  function FiveTierLabel(maxTemp: Option<real>, minTemp: Option<real>): (l: string)
    ensures l == "猛暑日" <==> maxTemp.Some? && maxTemp.value >= 35.0
    ensures l == "真夏日" <==> maxTemp.Some? && 30.0 <= maxTemp.value < 35.0
    ensures l == "夏日" <==> maxTemp.Some? && 25.0 <= maxTemp.value < 30.0
    ensures l == "真冬日" <==> maxTemp.Some? && maxTemp.value <= 0.0
    ensures l == "冬日" <==> maxTemp.Some? && 0.0 < maxTemp.value < 25.0 && minTemp.Some? && minTemp.value <= 0.0
    ensures l == "" <==> maxTemp.None? || (0.0 < maxTemp.value < 25.0 && (minTemp.None? || minTemp.value > 0.0))
  {
    if maxTemp.None? then ""
    else if maxTemp.value >= 35.0 then "猛暑日"
    else if maxTemp.value >= 30.0 then "真夏日"
    else if maxTemp.value >= 25.0 then "夏日"
    else if maxTemp.value <= 0.0 then "真冬日"
    else if minTemp.Some? && minTemp.value <= 0.0 then "冬日"
    else ""
  }

  /** The card label of the week views: the three summer tiers only. */
  function ThreeTierLabel(maxTemp: Option<real>): (l: string)
    ensures l == "猛暑日" <==> maxTemp.Some? && maxTemp.value >= 35.0
    ensures l == "真夏日" <==> maxTemp.Some? && 30.0 <= maxTemp.value < 35.0
    ensures l == "夏日" <==> maxTemp.Some? && 25.0 <= maxTemp.value < 30.0
    ensures l == "" <==> maxTemp.None? || maxTemp.value < 25.0
  {
    if maxTemp.None? then ""
    else if maxTemp.value >= 35.0 then "猛暑日"
    else if maxTemp.value >= 30.0 then "真夏日"
    else if maxTemp.value >= 25.0 then "夏日"
    else ""
  }

  /** The card label is the five-tier label with the winter tiers blanked out. */
  lemma ThreeTiersOfFive(maxTemp: Option<real>, minTemp: Option<real>)
    ensures ThreeTierLabel(maxTemp) ==
      if FiveTierLabel(maxTemp, minTemp) in {"猛暑日", "真夏日", "夏日"} then FiveTierLabel(maxTemp, minTemp) else ""
  {
  }

  /** `isHeat`: the forecast maximum is known and at least 35 °C, exactly the 猛暑日 days. */
  function IsHeat(forecastMax: Option<real>): (b: bool)
    ensures b <==> ThreeTierLabel(forecastMax) == "猛暑日"
  {
    forecastMax.Some? && forecastMax.value >= 35.0
  }

  // ---------------------------------------------------------------------------
  // The detail modal

  datatype ModalView = ModalView(
    maxTemp: Option<real>, minTemp: Option<real>, maxTempDiff: Option<real>, minTempDiff: Option<real>,
    isAbnormalMax: bool, isAbnormalMin: bool, tempLabel: string, showWarning: bool)

  /**
   * `WeatherDetailModal`: nothing when closed; otherwise the parsed
   * temperatures, their differences from history, the flags, the label, and
   * the warning, shown when either flag holds.
   */
  function DetailModal(isOpen: bool, f: ApiForecast, historical: HistoricalData, toNumber: string -> real): (v: Option<ModalView>)
    ensures v.None? <==> !isOpen
    ensures v.Some? ==> var m := v.value;
      && m.maxTemp == TruthyTemp(MaxCelsius(f), toNumber) && m.minTemp == TruthyTemp(MinCelsius(f), toNumber)
      && (m.maxTempDiff.None? <==> m.maxTemp.None? || historical.avgMax.None?)
      && (m.minTempDiff.None? <==> m.minTemp.None? || historical.avgMin.None?)
      && (m.isAbnormalMax <==> m.maxTempDiff.Some? && m.maxTempDiff.value >= 2.0)
      && (m.isAbnormalMin <==> m.minTempDiff.Some? && m.minTempDiff.value >= 2.0)
      && m.tempLabel == FiveTierLabel(m.maxTemp, m.minTemp)
      && (m.showWarning <==> m.isAbnormalMax || m.isAbnormalMin)
  {
    if !isOpen then None
    else
      var maxTemp := TruthyTemp(MaxCelsius(f), toNumber);
      var minTemp := TruthyTemp(MinCelsius(f), toNumber);
      var maxDiff := TempDiff(maxTemp, historical.avgMax);
      var minDiff := TempDiff(minTemp, historical.avgMin);
      var abnormalMax := IsAbnormal(maxDiff);
      var abnormalMin := IsAbnormal(minDiff);
      Some(ModalView(maxTemp, minTemp, maxDiff, minDiff, abnormalMax, abnormalMin,
        FiveTierLabel(maxTemp, minTemp), abnormalMax || abnormalMin))
  }

  /**
   * The forecast WeekWeatherSection hands to the modal: a missing `detail`
   * becomes all-null, a missing `chanceOfRain` four "--%", a missing image
   * empty strings; everything else is kept.
   */
  function ModalForecast(f: ApiForecast): (g: ApiForecast)
    ensures g.date == f.date && g.telop == f.telop && g.temperature == f.temperature
    ensures g.detail == Some(if f.detail.Some? then f.detail.value else Detail(None, None, None))
    ensures g.chanceOfRain == Some(if f.chanceOfRain.Some? then f.chanceOfRain.value else ChanceOfRain("--%", "--%", "--%", "--%"))
    ensures g.image == Some(if f.image.Some? then f.image.value else Image("", ""))
  {
    f.(detail := Some(f.detail.GetOr(Detail(None, None, None))),
       chanceOfRain := Some(f.chanceOfRain.GetOr(ChanceOfRain("--%", "--%", "--%", "--%"))),
       image := Some(f.image.GetOr(Image("", ""))))
  }

  /**
   * The modal of WeekWeatherSection: open only for a selected index with an
   * API forecast, fed the defaults above and that day's historical averages.
   */
  function SelectedModal(selected: Option<nat>, raw: seq<ApiForecast>, averages: seq<HistoricalData>,
                         toNumber: string -> real): (v: Option<ModalView>)
    ensures v.Some? <==> selected.Some? && selected.value < |raw|
    ensures v.Some? && selected.value < |averages| ==>
      v == DetailModal(true, ModalForecast(raw[selected.value]), averages[selected.value], toNumber)
    ensures v.Some? && selected.value >= |averages| ==>
      v == DetailModal(true, ModalForecast(raw[selected.value]), HistoricalData(None, None, 0), toNumber)
  {
    if selected.Some? && selected.value < |raw| then
      var i := selected.value;
      var h := if i < |averages| then averages[i] else HistoricalData(None, None, 0);
      DetailModal(true, ModalForecast(raw[i]), h, toNumber)
    else None
  }

  // ---------------------------------------------------------------------------
  // The week views' rows

  datatype ChartRow = ChartRow(
    date: string, forecastMax: Option<real>, forecastMin: Option<real>,
    historicalMax: Option<real>, historicalMin: Option<real>, telop: string, isTropicalNight: bool)

  /**
   * `chartData = weekDates.map((date, i) => …)`: row `i` pairs forecast `i`
   * with the historical averages of its own date.
   */
  function ChartRows(forecasts: seq<WeatherForecast>, byDate: map<string, seq<TemperatureData>>): (rows: seq<ChartRow>)
    ensures |rows| == |forecasts|
    ensures forall i :: 0 <= i < |forecasts| ==>
      && rows[i].date == forecasts[i].date
      && rows[i].forecastMax == forecasts[i].max_temp && rows[i].forecastMin == forecasts[i].min_temp
      && rows[i].historicalMax == GetHistoricalData(byDate, forecasts[i].date).avgMax
      && rows[i].historicalMin == GetHistoricalData(byDate, forecasts[i].date).avgMin
  {
    var averages := HistoricalAverages(MapSeq(forecasts, (f: WeatherForecast) => f.date), byDate);
    seq(|forecasts|, i requires 0 <= i < |forecasts| =>
      ChartRow(forecasts[i].date, forecasts[i].max_temp, forecasts[i].min_temp,
        averages[i].avgMax, averages[i].avgMin, forecasts[i].telop.GetOr(""),
        forecasts[i].is_tropical_night == Some(true)))
  }
}
