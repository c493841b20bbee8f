/** The weather forecast record the controllers keep in memory, and the
    validation rules registered for it. */
module Forecasts {
  import opened Primitives

  /** System.DateOnly; `default(DateOnly)` is 0001-01-01. */
  datatype DateOnly = DateOnly(year: int, month: int, day: int)

  const DefaultDate: DateOnly := DateOnly(1, 1, 1)

  /** WeatherForecastDto without its four BaseEntity fields (Version,
      CreatedBy, CreatedDate, ModifiedDate), which the controllers never read
      or write. TemperatureF is the private backing field: its setter ignores
      the assigned value and stores a conversion of the TemperatureC held at
      that moment. A request body brings whatever binding stored there; the
      initial rows never run the setter, so theirs is 0. */
  datatype Forecast = Forecast(
    id: Option<string>,
    date: DateOnly,
    temperatureC: Int32,
    temperatureF: Int32,
    summary: Option<string>)

  function Row(id: string, today: DateOnly, temperatureC: Int32, summary: string): (row: Forecast)
  {
    Forecast(Some(id), today, temperatureC, 0, Some(summary))
  }

  /** The five rows each controller starts with, all dated today. */
  function InitialForecasts(today: DateOnly): (r: seq<Forecast>)
    ensures |r| == 5
    ensures forall i | 0 <= i < 5 :: r[i].date == today && r[i].id.Some?
  {
    [ Row("38b7942a-8a8f-4a34-9744-e4dea6eaed78", today, 25, "Hot"),
      Row("3db3a34a-9dcf-42e6-977f-d6bbb2329f16", today, 15, "Cool"),
      Row("76d5e039-63b3-4c7f-bb8d-0847f729dcde", today, 5, "Cold"),
      Row("1130f076-1d75-4977-8a50-323a4ecf8f4e", today, 35, "Very Hot"),
      Row("2fa8d533-c8fd-45e6-8ee4-988e5b1d8d04", today, 20, "Warm") ]
  }

  /** The initial rows have pairwise distinct ids, so a lookup by id finds the
      row it names. */
  lemma InitialIdsDistinct(today: DateOnly)
    ensures forall i, j | 0 <= i < j < 5 ::
      InitialForecasts(today)[i].id != InitialForecasts(today)[j].id
  {
    var r := InitialForecasts(today);
    assert r[0].id.value[0] == '3' && r[1].id.value[0] == '3' && r[2].id.value[0] == '7';
    assert r[3].id.value[0] == '1' && r[4].id.value[0] == '2';
    assert r[0].id.value[1] == '8' && r[1].id.value[1] == 'd';
  }
}
