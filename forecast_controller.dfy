/** The unversioned WeatherForecast controller: the same in-memory table, but
    Create checks only for a missing body and stamps it with today's date, and
    Update does not validate the body. */
module WeatherForecastBasic {
  import opened Primitives
  import opened Forecasts
  import opened ForecastTable

  class WeatherForecastController {
    var forecast: seq<Forecast>

    /** The five sample rows, dated with the clock's `today`. */
    constructor (today: DateOnly)
      ensures forecast == InitialForecasts(today)
    {
      forecast := InitialForecasts(today);
    }

    /** Returns the table itself and changes nothing. */
    method Get() returns (r: ActionResult)
      ensures r == Ok(forecast)
    {
      r := Ok(forecast);
    }

    /** A blank id is a bad request, a missing id is not found, otherwise the
        first row with the id is returned. */
    method GetById(id: Option<string>) returns (r: ActionResult)
      ensures IsNullOrWhiteSpace(id) ==> r == IdRequired
      ensures !IsNullOrWhiteSpace(id) && !HasId(forecast, id.value) ==> r == ForecastNotFound
      ensures !IsNullOrWhiteSpace(id) && HasId(forecast, id.value) ==>
        exists k :: IsFirstMatch(forecast, id.value, k) && r == OkItem(forecast[k])
    {
      if IsNullOrWhiteSpace(id) {
        return IdRequired;
      }
      var k := FindFirst(forecast, id.value);
      if k.None? {
        return ForecastNotFound;
      }
      r := OkItem(forecast[k.value]);
    }

    /** A null body is a bad request with the table unchanged; otherwise the
        body's Date becomes `today` and the body is appended and returned. */
    method Create(newForecast: Option<Forecast>, today: DateOnly) returns (r: ActionResult)
      modifies this
      ensures newForecast.None? ==> r == ForecastRequired && forecast == old(forecast)
      ensures newForecast.Some? ==>
        var stamped := newForecast.value.(date := today);
        r == Created(stamped) && forecast == old(forecast) + [stamped]
    {
      if newForecast.None? {
        return ForecastRequired;
      }
      var item := newForecast.value.(date := today);
      forecast := forecast + [item];
      r := Created(item);
    }

    /** No validation: a blank id is a bad request and a missing id is not
        found, with the table unchanged; otherwise Date, TemperatureC and
        Summary of the first match are overwritten and nothing else changes. */
    method Update(id: Option<string>, newForecast: Forecast) returns (r: ActionResult)
      modifies this
      ensures IsNullOrWhiteSpace(id) ==> r == IdRequired && forecast == old(forecast)
      ensures !IsNullOrWhiteSpace(id) && !HasId(old(forecast), id.value) ==>
        r == ForecastNotFound && forecast == old(forecast)
      ensures !IsNullOrWhiteSpace(id) && HasId(old(forecast), id.value) ==>
        r == NoContent && |forecast| == |old(forecast)| &&
        exists k :: IsFirstMatch(old(forecast), id.value, k) &&
          forecast[k].id == old(forecast)[k].id &&
          forecast[k].temperatureF == old(forecast)[k].temperatureF &&
          forecast[k].date == newForecast.date &&
          forecast[k].temperatureC == newForecast.temperatureC &&
          forecast[k].summary == newForecast.summary &&
          forall j | 0 <= j < |forecast| && j != k :: forecast[j] == old(forecast)[j]
    {
      if IsNullOrWhiteSpace(id) {
        return IdRequired;
      }
      var k := FindFirst(forecast, id.value);
      if k.None? {
        return ForecastNotFound;
      }
      forecast := forecast[k.value := CopyEditableFields(forecast[k.value], newForecast)];
      r := NoContent;
    }

    /** A blank id is a bad request and a missing id is not found, both with
        the table unchanged; otherwise every row with the id goes and the
        others keep their order. */
    method Delete(id: Option<string>) returns (r: ActionResult)
      modifies this
      ensures IsNullOrWhiteSpace(id) ==> r == IdRequired && forecast == old(forecast)
      ensures !IsNullOrWhiteSpace(id) && !HasId(old(forecast), id.value) ==>
        r == ForecastNotFound && forecast == old(forecast)
      ensures !IsNullOrWhiteSpace(id) && HasId(old(forecast), id.value) ==>
        r == NoContent && forecast == RemoveId(old(forecast), id.value)
    {
      if IsNullOrWhiteSpace(id) {
        return IdRequired;
      }
      var k := FindFirst(forecast, id.value);
      if k.None? {
        return ForecastNotFound;
      }
      forecast := RemoveId(forecast, id.value);
      r := NoContent;
    }
  }
}
