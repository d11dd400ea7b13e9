/**
 * The module-level forecast cache of the week page (src/app/week/page.tsx):
 * the converted forecasts and the time they were stored, reused for one hour.
 *
 * `Date.now()` and the API request are not part of the model: the clock
 * readings are parameters, and the response is a value handed to the fetch.
 */
module ForecastCache {
  import opened Wrappers
  import opened TemperatureTypes
  import opened Forecast

  /** `CACHE_DURATION = 60 * 60 * 1000`: one hour, in milliseconds. */
  const CacheDuration: int := 60 * 60 * 1000

  /** What the request produced: the `forecasts` of an OK response (absent when the body had none), or a failure. */
  datatype Response = Ok(forecasts: Option<seq<ApiForecast>>) | Failed

  /** What the page shows after a fetch. */
  datatype Outcome = Loaded(forecasts: seq<WeatherForecast>, fromCache: bool) | Error(message: string)

  const FetchErrorMessage: string := "天気予報データの取得に失敗しました"

  /**
   * `cacheTimestamp && Date.now() - cacheTimestamp < CACHE_DURATION`: a
   * timestamp counts only when it is present and not 0, and only for strictly
   * less than an hour.
   */
  predicate Fresh(cacheTimestamp: Option<int>, now: int)
  {
    cacheTimestamp.Some? && cacheTimestamp.value != 0 && now - cacheTimestamp.value < CacheDuration
  }

  /** A timestamp that is fresh now was fresh at every earlier reading too; it expires an hour after it was stored. */
  lemma FreshUntilExpiry(storedAt: int, now: int)
    ensures Fresh(Some(storedAt), now) <==> storedAt != 0 && now < storedAt + 3600000
    ensures forall earlier :: earlier <= now && Fresh(Some(storedAt), now) ==> Fresh(Some(storedAt), earlier)
  {
  }

  class WeekForecastCache {
    var forecastCache: Option<seq<WeatherForecast>>
    var cacheTimestamp: Option<int>

    /** Both start out `null`. */
    constructor()
      ensures forecastCache == None && cacheTimestamp == None
    {
      forecastCache := None;
      cacheTimestamp := None;
    }

    /** `forecastCache && cacheTimestamp && Date.now() - cacheTimestamp < CACHE_DURATION`. */
    predicate IsHit(now: int)
      reads this
    {
      forecastCache.Some? && Fresh(cacheTimestamp, now)
    }

    /**
     * `fetchForecast`: on a hit, the cached forecasts, without a request and
     * with the cache untouched. Otherwise the response decides: an OK one is
     * converted with the `!== null` test and stored, with the stored-at clock
     * reading `storedAt`; a failure shows the error message and leaves the
     * cache as it was.
     */
    method Fetch(now: int, response: Response, storedAt: int, toNumber: string -> real) returns (outcome: Outcome)
      modifies this
      ensures old(IsHit(now)) ==>
        outcome == Loaded(old(forecastCache).value, true) && unchanged(this)
      ensures !old(IsHit(now)) && response.Ok? ==>
        var converted := ConvertForecasts(response.forecasts.GetOr([]), NotNull(toNumber));
        && outcome == Loaded(converted, false)
        && forecastCache == Some(converted)
        && cacheTimestamp == Some(storedAt)
      ensures !old(IsHit(now)) && response.Failed? ==>
        outcome == Error(FetchErrorMessage) && unchanged(this)
    {
      if IsHit(now) {
        return Loaded(forecastCache.value, true);
      }
      match response
      case Failed =>
        outcome := Error(FetchErrorMessage);
      case Ok(fs) =>
        var forecasts := ConvertForecasts(fs.GetOr([]), NotNull(toNumber));
        forecastCache := Some(forecasts);
        cacheTimestamp := Some(storedAt);
        outcome := Loaded(forecasts, false);
    }
  }

  /**
   * A successful fetch at a non-zero `storedAt` is reused by every later fetch
   * within the hour, whatever its response, and the next fetch after the hour
   * goes to the network again.
   */
  method FetchTwice(cache: WeekForecastCache, now1: int, r1: Response, storedAt: int,
                    now2: int, r2: Response, storedAt2: int, toNumber: string -> real)
    returns (first: Outcome, second: Outcome)
    requires !cache.IsHit(now1) && r1.Ok?
    modifies cache
    ensures first.Loaded? && !first.fromCache
    ensures storedAt != 0 && now2 - storedAt < CacheDuration ==> second == Loaded(first.forecasts, true)
    ensures !(storedAt != 0 && now2 - storedAt < CacheDuration) && r2.Failed? ==> second == Error(FetchErrorMessage)
    ensures !(storedAt != 0 && now2 - storedAt < CacheDuration) && r2.Ok? ==> second.Loaded? && !second.fromCache
  {
    first := cache.Fetch(now1, r1, storedAt, toNumber);
    second := cache.Fetch(now2, r2, storedAt2, toNumber);
  }
}
