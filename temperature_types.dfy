/**
 * The record shapes shared by the aggregation code and the charts: one daily
 * observation, and the annual, monthly, month-by-year and day-of-year series
 * built from them. Temperatures are exact reals.
 */
module TemperatureTypes {
  import opened Wrappers
  import opened Seqs

  /** One day's observation in Tokyo; `date` is kept as it appeared in the source file. */
  datatype TemperatureData = TemperatureData(
    date: string, year: int, month: int, day: int, max_temp: real, min_temp: real)

  datatype AnnualData = AnnualData(year: int, avg_max_temp: real, avg_min_temp: real, temp_diff: real)

  /** `month_name` is `monthNames[month - 1]`, `undefined` for a month outside 1..12. */
  datatype MonthlyData = MonthlyData(
    month: int, month_name: Option<string>, avg_max_temp: real, avg_min_temp: real, temp_diff: real)

  datatype MonthlyYearlyData = MonthlyYearlyData(
    year: int, month: int, month_name: Option<string>, avg_max_temp: real, avg_min_temp: real, temp_diff: real)

  datatype DailyData = DailyData(
    day_of_year: int, month: int, day: int, date_label: string,
    avg_max_temp: real, avg_min_temp: real, temp_diff: real)

  /**
   * A forecast day as the pages use it. The temperatures may be `null` at run
   * time although the declared type says `number`, so they are optional here;
   * so are `telop` and `is_tropical_night`, which the declaration marks optional.
   */
  datatype WeatherForecast = WeatherForecast(
    date: string, max_temp: Option<real>, min_temp: Option<real>, weather_code: int,
    temp_anomaly_max: real, temp_anomaly_min: real,
    telop: Option<string>, is_tropical_night: Option<bool>)

  // Field accessors, passed as keys to grouping, filtering and sorting.

  function YearOf(r: TemperatureData): int { r.year }
  function MonthOf(r: TemperatureData): int { r.month }
  function MaxTempOf(r: TemperatureData): real { r.max_temp }
  function MinTempOf(r: TemperatureData): real { r.min_temp }
  function DateOf(r: TemperatureData): string { r.date }

  /** The `maxTemps` list a group accumulates: its records' `max_temp`, in order. */
  function MaxTemps(g: seq<TemperatureData>): (ts: seq<real>)
    ensures |ts| == |g| && forall i :: 0 <= i < |g| ==> ts[i] == g[i].max_temp
  {
    MapSeq(g, MaxTempOf)
  }

  function MinTemps(g: seq<TemperatureData>): (ts: seq<real>)
    ensures |ts| == |g| && forall i :: 0 <= i < |g| ==> ts[i] == g[i].min_temp
  {
    MapSeq(g, MinTempOf)
  }

  /** `(record) => record.year === y`. */
  function InYear(y: int): TemperatureData -> bool
  {
    (r: TemperatureData) => r.year == y
  }

  /** `(record) => record.month === m`. */
  function InMonth(m: int): TemperatureData -> bool
  {
    (r: TemperatureData) => r.month == m
  }
}
