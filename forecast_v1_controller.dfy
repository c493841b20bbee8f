/** The version 1 WeatherForecast controller: an in-memory `forecast` table
    with Get, GetById, Create, Update and Delete. The injected validator is a
    parameter of the actions that use it; the mapper is the identity. */
module WeatherForecastV1 {
  import opened Primitives
  import opened Forecasts
  import opened DtoValidator
  import opened ForecastTable

  class WeatherForecastController {
    var forecast: seq<Forecast>

    /** The five sample rows, dated with the clock's `today`. */
    constructor (today: DateOnly)
      ensures forecast == InitialForecasts(today)
    {
      forecast := InitialForecasts(today);
    }

    /** Returns the table itself and changes nothing. */
    method Get() returns (r: ActionResult)
      ensures r == Ok(forecast)
    {
      r := Ok(forecast);
    }

    /** A blank id is rejected before any lookup; otherwise the first row
        with this id is returned, or NotFound when there is none. */
    method GetById(id: Option<string>) returns (r: ActionResult)
      ensures IsNullOrWhiteSpace(id) ==> r == IdRequired
      ensures !IsNullOrWhiteSpace(id) && !HasId(forecast, id.value) ==> r == ForecastNotFound
      ensures !IsNullOrWhiteSpace(id) && HasId(forecast, id.value) ==>
        exists k :: IsFirstMatch(forecast, id.value, k) && r == OkItem(forecast[k])
    {
      if IsNullOrWhiteSpace(id) {
        return IdRequired;
      }
      var k := FindFirst(forecast, id.value);
      if k.None? {
        return ForecastNotFound;
      }
      r := OkItem(forecast[k.value]);
    }

    /** A body the validator rejects leaves the table alone; a valid one is
        appended as it is, whatever its id, and returned. */
    method Create(newForecast: Forecast, validator: Forecast -> seq<ValidationError>)
      returns (r: ActionResult)
      modifies this
      ensures |validator(newForecast)| > 0 ==>
        r == BadRequest(ErrorDictionary(ToDictionary(validator(newForecast)))) && forecast == old(forecast)
      ensures |validator(newForecast)| == 0 ==>
        r == Created(newForecast) && forecast == old(forecast) + [newForecast]
    {
      var errors := validator(newForecast);
      if |errors| > 0 {
        return BadRequest(ErrorDictionary(ToDictionary(errors)));
      }
      forecast := forecast + [newForecast];
      r := Created(newForecast);
    }

    /** Checks, in order: a blank id, an invalid body, a missing id; each
        leaves the table alone. Otherwise Date, TemperatureC and Summary of
        the first row with the id are overwritten and nothing else changes. */
    method Update(id: Option<string>, newForecast: Forecast, validator: Forecast -> seq<ValidationError>)
      returns (r: ActionResult)
      modifies this
      ensures IsNullOrWhiteSpace(id) ==> r == IdRequired && forecast == old(forecast)
      ensures !IsNullOrWhiteSpace(id) && |validator(newForecast)| > 0 ==>
        r == BadRequest(ErrorDictionary(ToDictionary(validator(newForecast)))) && forecast == old(forecast)
      ensures !IsNullOrWhiteSpace(id) && |validator(newForecast)| == 0 && !HasId(old(forecast), id.value) ==>
        r == ForecastNotFound && forecast == old(forecast)
      ensures !IsNullOrWhiteSpace(id) && |validator(newForecast)| == 0 && HasId(old(forecast), id.value) ==>
        r == NoContent && |forecast| == |old(forecast)| &&
        exists k :: IsFirstMatch(old(forecast), id.value, k) &&
          forecast[k].id == old(forecast)[k].id &&
          forecast[k].temperatureF == old(forecast)[k].temperatureF &&
          forecast[k].date == newForecast.date &&
          forecast[k].temperatureC == newForecast.temperatureC &&
          forecast[k].summary == newForecast.summary &&
          forall j | 0 <= j < |forecast| && j != k :: forecast[j] == old(forecast)[j]
    {
      if IsNullOrWhiteSpace(id) {
        return IdRequired;
      }
      var errors := validator(newForecast);
      if |errors| > 0 {
        return BadRequest(ErrorDictionary(ToDictionary(errors)));
      }
      var k := FindFirst(forecast, id.value);
      if k.None? {
        return ForecastNotFound;
      }
      forecast := forecast[k.value := CopyEditableFields(forecast[k.value], newForecast)];
      r := NoContent;
    }

    /** A blank id is a bad request and a missing id is not found, both with
        the table unchanged; otherwise every row with the id goes and the
        others keep their order. */
    method Delete(id: Option<string>) returns (r: ActionResult)
      modifies this
      ensures IsNullOrWhiteSpace(id) ==> r == IdRequired && forecast == old(forecast)
      ensures !IsNullOrWhiteSpace(id) && !HasId(old(forecast), id.value) ==>
        r == ForecastNotFound && forecast == old(forecast)
      ensures !IsNullOrWhiteSpace(id) && HasId(old(forecast), id.value) ==>
        r == NoContent && forecast == RemoveId(old(forecast), id.value)
    {
      if IsNullOrWhiteSpace(id) {
        return IdRequired;
      }
      var k := FindFirst(forecast, id.value);
      if k.None? {
        return ForecastNotFound;
      }
      forecast := RemoveId(forecast, id.value);
      r := NoContent;
    }
  }
}
