/**
 * The saved forecasts (src/lib/weather-fetcher.ts): the `weather_forecasts`
 * table as a sequence of rows; saving a day's batch replaces that day's rows,
 * and the reads select one `saved_date`, ordered by `forecast_date`, or list
 * the dates there are.
 *
 * The database, the request and the clock are not part of the model: the
 * table is the field `rows`, the response is a value handed to `Save`, and
 * `format(new Date(), 'yyyy-MM-dd')` is the parameter `savedDate`.
 */
module ForecastStore {
  import opened Wrappers
  import opened Strings
  import opened Seqs
  import opened Sorting
  import opened Forecast

  /** One row of `weather_forecasts` (src/lib/db.ts): the columns a save fills, `raw_data` aside. */
  datatype ForecastRow = ForecastRow(
    savedDate: string, forecastDate: string, dateLabel: string, telop: Option<string>,
    maxTemp: Option<real>, minTemp: Option<real>, isTropicalNight: bool,
    chanceOfRain00To06: Option<string>, chanceOfRain06To12: Option<string>,
    chanceOfRain12To18: Option<string>, chanceOfRain18To24: Option<string>,
    weatherDetail: Option<string>, wind: Option<string>, wave: Option<string>, imageUrl: Option<string>)

  /** The response of the forecast request: whether it was OK, its status, and the body's `forecasts`. */
  datatype ApiResponse = ApiResponse(ok: bool, status: int, forecasts: Option<seq<ApiForecast>>)

  /** `{ success: true, savedDate }` or `{ success: false, error }`. */
  datatype SaveResult = Saved(savedDate: string) | SaveFailed(error: string)

  /** `` `API request failed: ${response.status}` `` */
  function RequestFailedMessage(status: int): string
  {
    "API request failed: " + IntToString(status)
  }

  // ---------------------------------------------------------------------------
  // Building a row

  /** `forecast.detail?.<field>`. */
  function DetailField(d: Option<Detail>, field: Detail -> Option<string>): (r: Option<string>)
    ensures d.None? ==> r.None?
    ensures d.Some? ==> r == field(d.value)
  {
    if d.Some? then field(d.value) else None
  }

  /** `forecast.chanceOfRain?.<slot>`. */
  function RainField(c: Option<ChanceOfRain>, slot: ChanceOfRain -> string): (r: Option<string>)
    ensures r.Some? <==> c.Some?
    ensures r.Some? ==> r.value == slot(c.value)
  {
    if c.Some? then Some(slot(c.value)) else None
  }

  function Weather(d: Detail): Option<string> { d.weather }
  function Wind(d: Detail): Option<string> { d.wind }
  function Wave(d: Detail): Option<string> { d.wave }
  function Slot00To06(c: ChanceOfRain): string { c.t00_06 }
  function Slot06To12(c: ChanceOfRain): string { c.t06_12 }
  function Slot12To18(c: ChanceOfRain): string { c.t12_18 }
  function Slot18To24(c: ChanceOfRain): string { c.t18_24 }

  /**
   * The record built for one forecast: the temperatures are `null` when
   * `celsius` is missing or empty and `Number(celsius)` otherwise, and the day
   * is a tropical night exactly when the minimum is known and at least 25 °C.
   */
  function BuildRow(savedDate: string, f: ApiForecast, toNumber: string -> real): (r: ForecastRow)
    ensures r.savedDate == savedDate && r.forecastDate == f.date
    ensures r.dateLabel == f.dateLabel && r.telop == f.telop
    ensures r.maxTemp.None? <==> MaxCelsius(f).None? || MaxCelsius(f) == Some("")
    ensures r.minTemp.None? <==> MinCelsius(f).None? || MinCelsius(f) == Some("")
    ensures r.maxTemp.Some? ==> r.maxTemp.value == toNumber(MaxCelsius(f).value)
    ensures r.minTemp.Some? ==> r.minTemp.value == toNumber(MinCelsius(f).value)
    ensures r.isTropicalNight <==> r.minTemp.Some? && r.minTemp.value >= 25.0
    ensures r.chanceOfRain00To06.Some? <==> f.chanceOfRain.Some?
    ensures r.chanceOfRain06To12.Some? <==> f.chanceOfRain.Some?
    ensures r.chanceOfRain12To18.Some? <==> f.chanceOfRain.Some?
    ensures r.chanceOfRain18To24.Some? <==> f.chanceOfRain.Some?
    ensures f.chanceOfRain.Some? ==>
      && r.chanceOfRain00To06 == Some(f.chanceOfRain.value.t00_06)
      && r.chanceOfRain06To12 == Some(f.chanceOfRain.value.t06_12)
      && r.chanceOfRain12To18 == Some(f.chanceOfRain.value.t12_18)
      && r.chanceOfRain18To24 == Some(f.chanceOfRain.value.t18_24)
    ensures f.detail.None? ==> r.weatherDetail.None? && r.wind.None? && r.wave.None?
    ensures f.detail.Some? ==>
      && r.weatherDetail == f.detail.value.weather
      && r.wind == f.detail.value.wind
      && r.wave == f.detail.value.wave
    ensures r.imageUrl.Some? <==> f.image.Some?
    ensures r.imageUrl.Some? ==> r.imageUrl.value == f.image.value.url
  {
    var minTemp := TruthyTemp(MinCelsius(f), toNumber);
    ForecastRow(
      savedDate, f.date, f.dateLabel, f.telop,
      TruthyTemp(MaxCelsius(f), toNumber), minTemp, TropicalFlag(minTemp),
      RainField(f.chanceOfRain, Slot00To06), RainField(f.chanceOfRain, Slot06To12),
      RainField(f.chanceOfRain, Slot12To18), RainField(f.chanceOfRain, Slot18To24),
      DetailField(f.detail, Weather), DetailField(f.detail, Wind), DetailField(f.detail, Wave),
      if f.image.Some? then Some(f.image.value.url) else None)
  }

  /** The rows one save inserts, in the API's order, all under `savedDate`. */
  function BuildRows(savedDate: string, fs: seq<ApiForecast>, toNumber: string -> real): (rs: seq<ForecastRow>)
    ensures |rs| == |fs|
    ensures forall i :: 0 <= i < |fs| ==> rs[i] == BuildRow(savedDate, fs[i], toNumber)
    ensures forall i :: 0 <= i < |rs| ==> rs[i].savedDate == savedDate
  {
    MapSeq(fs, (f: ApiForecast) => BuildRow(savedDate, f, toNumber))
  }

  // ---------------------------------------------------------------------------
  // Replacing a day's rows

  function SavedOn(d: string): ForecastRow -> bool
  {
    (r: ForecastRow) => r.savedDate == d
  }

  function NotSavedOn(d: string): ForecastRow -> bool
  {
    (r: ForecastRow) => r.savedDate != d
  }

  /** The table after `DELETE … WHERE saved_date = d` and the inserts of `batch`. */
  function AfterSave(rows: seq<ForecastRow>, d: string, batch: seq<ForecastRow>): (after: seq<ForecastRow>)
    ensures forall x :: x in after <==> (x in rows && x.savedDate != d) || x in batch
  {
    FilterMembers(rows, NotSavedOn(d));
    Filter(rows, NotSavedOn(d)) + batch
  }

  /** After a save for `d`, the rows saved on `d` are exactly the new batch, in its order. */
  lemma SaveReplacesDate(rows: seq<ForecastRow>, d: string, batch: seq<ForecastRow>)
    requires forall i :: 0 <= i < |batch| ==> batch[i].savedDate == d
    ensures Filter(AfterSave(rows, d, batch), SavedOn(d)) == batch
  {
    var kept := Filter(rows, NotSavedOn(d));
    FilterAppend(kept, batch, SavedOn(d));
    FilterMembers(rows, NotSavedOn(d));
    assert forall i :: 0 <= i < |kept| ==> kept[i] in kept;
    FilterNonePass(kept, SavedOn(d));
    FilterAllPass(batch, SavedOn(d));
  }

  /** The rows of every other date are untouched, in order. */
  lemma SaveKeepsOtherDates(rows: seq<ForecastRow>, d: string, batch: seq<ForecastRow>, e: string)
    requires forall i :: 0 <= i < |batch| ==> batch[i].savedDate == d
    requires e != d
    ensures Filter(AfterSave(rows, d, batch), SavedOn(e)) == Filter(rows, SavedOn(e))
  {
    var kept := Filter(rows, NotSavedOn(d));
    FilterAppend(kept, batch, SavedOn(e));
    FilterOfFilter(rows, NotSavedOn(d), SavedOn(e));
    FilterNonePass(batch, SavedOn(e));
  }

  /** Two saves on the same day leave the table as the second alone would have. */
  lemma SaveTwiceKeepsSecond(rows: seq<ForecastRow>, d: string, first: seq<ForecastRow>, second: seq<ForecastRow>)
    requires forall i :: 0 <= i < |first| ==> first[i].savedDate == d
    ensures AfterSave(AfterSave(rows, d, first), d, second) == AfterSave(rows, d, second)
  {
    var kept := Filter(rows, NotSavedOn(d));
    assert AfterSave(rows, d, first) == kept + first;
    FilterAppend(kept, first, NotSavedOn(d));
    FilterOfFilter(rows, NotSavedOn(d), NotSavedOn(d));
    FilterNonePass(first, NotSavedOn(d));
    assert Filter(kept + first, NotSavedOn(d)) == kept;
  }

  // ---------------------------------------------------------------------------
  // Reading

  /** `ORDER BY forecast_date`: the dates compared as text. */
  function ByForecastDate(): (ForecastRow, ForecastRow) -> bool
  {
    (a: ForecastRow, b: ForecastRow) => StrLe(a.forecastDate, b.forecastDate)
  }

  lemma ByForecastDateTotalPreorder()
    ensures TotalPreorder(ByForecastDate())
  {
    forall a: ForecastRow, b: ForecastRow
      ensures ByForecastDate()(a, b) || ByForecastDate()(b, a)
    {
      StrLeTotal(a.forecastDate, b.forecastDate);
    }
    forall a: ForecastRow, b: ForecastRow, c: ForecastRow | ByForecastDate()(a, b) && ByForecastDate()(b, c)
      ensures ByForecastDate()(a, c)
    {
      StrLeTransitive(a.forecastDate, b.forecastDate, c.forecastDate);
    }
  }

  /** `SELECT * FROM weather_forecasts WHERE saved_date = ? ORDER BY forecast_date`. */
  function RowsSavedOn(rows: seq<ForecastRow>, d: string): seq<ForecastRow>
  {
    SortBy(Filter(rows, SavedOn(d)), ByForecastDate())
  }

  /** The selection holds the rows saved on `d`, each as often as the table does, by forecast date. */
  lemma RowsSavedOnShape(rows: seq<ForecastRow>, d: string)
    ensures var r := RowsSavedOn(rows, d);
      && multiset(r) == multiset(Filter(rows, SavedOn(d)))
      && (forall i :: 0 <= i < |r| ==> r[i].savedDate == d && r[i] in rows)
      && Sorted(r, ByForecastDate())
  {
    var r := RowsSavedOn(rows, d);
    FilterMembers(rows, SavedOn(d));
    var f := Filter(rows, SavedOn(d));
    forall i | 0 <= i < |r|
      ensures r[i].savedDate == d && r[i] in rows
    {
      assert r[i] in multiset(r);
      assert r[i] in multiset(f);
      assert r[i] in f;
    }
    ByForecastDateTotalPreorder();
    SortBySorted(Filter(rows, SavedOn(d)), ByForecastDate());
  }

  /** `SELECT MAX(saved_date)`: `null` on an empty table. */
  function LatestSavedDate(rows: seq<ForecastRow>): (m: Option<string>)
    ensures m.None? <==> |rows| == 0
  {
    if |rows| == 0 then None
    else
      var d := rows[|rows| - 1].savedDate;
      match LatestSavedDate(rows[..|rows| - 1])
      case None => Some(d)
      case Some(m) => if StrLe(m, d) then Some(d) else Some(m)
  }

  /** The latest date is the date of some row, and no row's date is greater. */
  lemma {:induction false} LatestSavedDateIsMax(rows: seq<ForecastRow>)
    requires |rows| > 0
    ensures exists i :: 0 <= i < |rows| && rows[i].savedDate == LatestSavedDate(rows).value
    ensures forall i :: 0 <= i < |rows| ==> StrLe(rows[i].savedDate, LatestSavedDate(rows).value)
  {
    var init := rows[..|rows| - 1];
    var d := rows[|rows| - 1].savedDate;
    var m := LatestSavedDate(rows).value;
    if |init| == 0 {
      StrLeReflexive(d);
    } else {
      LatestSavedDateIsMax(init);
      var mi := LatestSavedDate(init).value;
      var j :| 0 <= j < |init| && init[j].savedDate == mi;
      assert rows[j] == init[j];
      if StrLe(mi, d) {
        forall i | 0 <= i < |init|
          ensures StrLe(rows[i].savedDate, d)
        {
          assert rows[i] == init[i];
          StrLeTransitive(rows[i].savedDate, mi, d);
        }
        StrLeReflexive(d);
      } else {
        StrLeTotal(mi, d);
        forall i | 0 <= i < |init|
          ensures StrLe(rows[i].savedDate, mi)
        {
          assert rows[i] == init[i];
        }
      }
    }
  }

  /** `if (date)`: a string is truthy unless it is empty. */
  predicate Truthy(s: Option<string>)
  {
    s.Some? && s.value != ""
  }

  /**
   * The date `getSavedWeatherForecasts` reads: the given one when it is
   * truthy, otherwise the latest saved date when that is truthy, otherwise
   * none at all.
   */
  function ChosenDate(rows: seq<ForecastRow>, date: Option<string>): (c: Option<string>)
    ensures Truthy(date) ==> c == date
    ensures !Truthy(date) && |rows| == 0 ==> c.None?
    ensures !Truthy(date) && c.Some? ==>
      && c.value != ""
      && (exists i :: 0 <= i < |rows| && rows[i].savedDate == c.value)
      && (forall i :: 0 <= i < |rows| ==> StrLe(rows[i].savedDate, c.value))
  {
    if Truthy(date) then date
    else if Truthy(LatestSavedDate(rows)) then
      LatestSavedDateIsMax(rows);
      LatestSavedDate(rows)
    else None
  }

  /** `getSavedWeatherForecasts(date)`. */
  function SavedForecasts(rows: seq<ForecastRow>, date: Option<string>): (r: seq<ForecastRow>)
    ensures ChosenDate(rows, date).None? ==> r == []
    ensures ChosenDate(rows, date).Some? ==> r == RowsSavedOn(rows, ChosenDate(rows, date).value)
  {
    match ChosenDate(rows, date)
    case None => []
    case Some(d) => RowsSavedOn(rows, d)
  }

  /**
   * Reading the date just saved gives back the batch, reordered by forecast
   * date: the same rows, each once per insert.
   */
  lemma ReadAfterSave(rows: seq<ForecastRow>, d: string, batch: seq<ForecastRow>)
    requires forall i :: 0 <= i < |batch| ==> batch[i].savedDate == d
    requires d != ""
    ensures multiset(SavedForecasts(AfterSave(rows, d, batch), Some(d))) == multiset(batch)
    ensures Sorted(SavedForecasts(AfterSave(rows, d, batch), Some(d)), ByForecastDate())
  {
    SaveReplacesDate(rows, d, batch);
    RowsSavedOnShape(AfterSave(rows, d, batch), d);
  }

  /** `SELECT DISTINCT saved_date … ORDER BY saved_date DESC`. */
  function SavedDateOf(r: ForecastRow): string { r.savedDate }

  function SameDate(s: string): string { s }

  function ByDateDesc(): (string, string) -> bool
  {
    (a: string, b: string) => StrLe(b, a)
  }

  lemma ByDateDescTotalPreorder()
    ensures TotalPreorder(ByDateDesc())
  {
    forall a: string, b: string
      ensures ByDateDesc()(a, b) || ByDateDesc()(b, a)
    {
      StrLeTotal(a, b);
    }
    forall a: string, b: string, c: string | ByDateDesc()(a, b) && ByDateDesc()(b, c)
      ensures ByDateDesc()(a, c)
    {
      StrLeTransitive(c, b, a);
    }
  }

  /** `getSavedDates()`. */
  function SavedDates(rows: seq<ForecastRow>): seq<string>
  {
    SortBy(DistinctKeys(rows, SavedDateOf), ByDateDesc())
  }

  /** Every saved date once, the latest first, strictly descending. */
  lemma SavedDatesShape(rows: seq<ForecastRow>)
    ensures var ds := SavedDates(rows);
      && (forall d :: d in ds <==> exists i :: 0 <= i < |rows| && rows[i].savedDate == d)
      && (forall i, j :: 0 <= i < j < |ds| ==> StrLe(ds[j], ds[i]) && ds[i] != ds[j])
  {
    var ks := DistinctKeys(rows, SavedDateOf);
    var ds := SavedDates(rows);
    assert multiset(ds) == multiset(ks);
    forall d
      ensures d in ds <==> d in ks
    {
      assert d in ds <==> d in multiset(ds);
      assert d in ks <==> d in multiset(ks);
    }
    assert KeysDistinct(ks, SameDate);
    KeysDistinctPermutation(ks, ds, SameDate);
    ByDateDescTotalPreorder();
    SortBySorted(ks, ByDateDesc());
    forall i, j | 0 <= i < j < |ds|
      ensures StrLe(ds[j], ds[i]) && ds[i] != ds[j]
    {
      assert ByDateDesc()(ds[i], ds[j]);
      assert SameDate(ds[i]) != SameDate(ds[j]);
    }
  }

  /**
   * Dates written `yyyy-MM-dd` compare as text exactly as they compare as
   * dates, so `MAX(saved_date)` is the latest day and `ORDER BY saved_date`
   * is chronological (the extended calendar date of ISO 8601, section 4.1.2.2,
   * for the years 1000 to 9999).
   */
  lemma IsoDateOrder(y1: nat, m1: nat, d1: nat, y2: nat, m2: nat, d2: nat)
    requires 1000 <= y1 <= 9999 && 1000 <= y2 <= 9999
    requires m1 < 100 && d1 < 100 && m2 < 100 && d2 < 100
    ensures StrLe(IsoDate(y1, m1, d1), IsoDate(y2, m2, d2)) <==>
      y1 < y2 || (y1 == y2 && (m1 < m2 || (m1 == m2 && d1 <= d2)))
  {
    IsoDateFields(y1, m1, d1);
    IsoDateFields(y2, m2, d2);
    MonthDayOrder(m1, d1, m2, d2);
    DigitFieldOrder(IntToString(y1), IntToString(y2), MonthDay(m1, d1), MonthDay(m2, d2));
  }

  /** `yyyy-MM-dd` is the year's four digits, then `-MM-dd`. */
  lemma IsoDateFields(y: nat, m: nat, d: nat)
    requires 1000 <= y <= 9999
    ensures IsoDate(y, m, d) == IntToString(y) + MonthDay(m, d)
    ensures |IntToString(y)| == 4 && AllDigits(IntToString(y)) && DigitsValue(IntToString(y)) == y
  {
    var ys, ms, ds := IntToString(y), Pad2(m), Pad2(d);
    assert IsoDate(y, m, d) == ys + "-" + ms + "-" + ds;
    RegroupFields(ys, "-", ms, "-", ds);
    FourDigitYear(y);
  }

  lemma RegroupFields(a: string, b: string, c: string, d: string, e: string)
    ensures a + b + c + d + e == a + (b + (c + (d + e)))
  {
  }

  lemma FourDigitYear(y: nat)
    requires 1000 <= y <= 9999
    ensures |IntToString(y)| == 4 && AllDigits(IntToString(y)) && DigitsValue(IntToString(y)) == y
  {
    assert Pow10(3) == 1000 && Pow10(4) == 10000;
    NatToStringLength(y, 4);
    NatToStringRoundTrip(y);
  }

  /** The `-MM-dd` after the year. */
  function MonthDay(m: nat, d: nat): string
  {
    "-" + (Pad2(m) + ("-" + Pad2(d)))
  }

  lemma MonthDayOrder(m1: nat, d1: nat, m2: nat, d2: nat)
    requires m1 < 100 && d1 < 100 && m2 < 100 && d2 < 100
    ensures StrLe(MonthDay(m1, d1), MonthDay(m2, d2)) <==> m1 < m2 || (m1 == m2 && d1 <= d2)
  {
    PaddedTwoDigits(m1);
    PaddedTwoDigits(m2);
    PaddedTwoDigits(d1);
    PaddedTwoDigits(d2);
    MonthThenDay(Pad2(m1), Pad2(d1), Pad2(m2), Pad2(d2));
    DashedOrder(Pad2(m1) + ("-" + Pad2(d1)), Pad2(m2) + ("-" + Pad2(d2)));
  }

  /** `MM-dd` against `MM-dd`: by month, then by day. */
  lemma MonthThenDay(ms1: string, ds1: string, ms2: string, ds2: string)
    requires AllDigits(ms1) && AllDigits(ms2) && |ms1| == |ms2|
    requires AllDigits(ds1) && AllDigits(ds2) && |ds1| == |ds2|
    ensures StrLe(ms1 + ("-" + ds1), ms2 + ("-" + ds2)) <==>
      DigitsValue(ms1) < DigitsValue(ms2) || (DigitsValue(ms1) == DigitsValue(ms2) && DigitsValue(ds1) <= DigitsValue(ds2))
  {
    DashedOrder(ds1, ds2);
    StrLeDigits(ds1, ds2);
    DigitFieldOrder(ms1, ms2, "-" + ds1, "-" + ds2);
  }

  /** A shared leading `-` does not change the order. */
  lemma DashedOrder(a: string, b: string)
    ensures StrLe("-" + a, "-" + b) <==> StrLe(a, b)
  {
    assert ("-" + a)[1..] == a && ("-" + b)[1..] == b;
  }

  // ---------------------------------------------------------------------------
  // The table

  class WeatherForecastTable {
    var rows: seq<ForecastRow>

    constructor()
      ensures rows == []
    {
      rows := [];
    }

    /**
     * `fetchAndSaveWeatherForecast`: a response that is not OK fails with its
     * status and leaves the table alone; otherwise the rows of `savedDate` are
     * deleted and one row per forecast of `data.forecasts || []` is inserted,
     * in order.
     */
    method Save(savedDate: string, response: ApiResponse, toNumber: string -> real) returns (result: SaveResult)
      modifies this
      ensures !response.ok ==> result == SaveFailed(RequestFailedMessage(response.status)) && rows == old(rows)
      ensures response.ok ==>
        && result == Saved(savedDate)
        && rows == AfterSave(old(rows), savedDate, BuildRows(savedDate, response.forecasts.GetOr([]), toNumber))
    {
      if !response.ok {
        return SaveFailed(RequestFailedMessage(response.status));
      }
      rows := Filter(rows, NotSavedOn(savedDate));
      ghost var kept := rows;
      var fs := response.forecasts.GetOr([]);
      ghost var batch := BuildRows(savedDate, fs, toNumber);
      for i := 0 to |fs|
        invariant rows == kept + batch[..i]
      {
        rows := rows + [BuildRow(savedDate, fs[i], toNumber)];
        assert batch[..i + 1] == batch[..i] + [batch[i]];
      }
      assert batch[..|fs|] == batch;
      result := Saved(savedDate);
    }
  }
}
