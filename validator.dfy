/** DtoValidator: two independent FluentValidation rules, each with a fixed
    message. NotNull never fails on a value type; NotEmpty fails on the type's
    default value, so only `default(DateOnly)` and a temperature of 0 fail. */
module DtoValidator {
  import opened Forecasts

  /** A FluentValidation failure: the property and the rule's message. */
  datatype ValidationError = ValidationError(propertyName: string, errorMessage: string)

  const DateRequired := ValidationError("Date", "Date is required")
  const TemperatureRequired := ValidationError("TemperatureC", "TemperatureC is required")

  /** The failures of both rules, in the order the rules are declared. */
  function Validate(f: Forecast): (errors: seq<ValidationError>)
    ensures |errors| == 0 <==> f.date != DefaultDate && f.temperatureC != 0
    ensures DateRequired in errors <==> f.date == DefaultDate
    ensures TemperatureRequired in errors <==> f.temperatureC == 0
    ensures forall e | e in errors :: e == DateRequired || e == TemperatureRequired
  {
    (if f.date == DefaultDate then [DateRequired] else [])
      + (if f.temperatureC == 0 then [TemperatureRequired] else [])
  }

  predicate IsValid(f: Forecast)
  {
    |Validate(f)| == 0
  }

  /** Only Date and TemperatureC take part in validation. */
  lemma OnlyDateAndTemperatureMatter(f: Forecast, g: Forecast)
    requires f.date == g.date && f.temperatureC == g.temperatureC
    ensures Validate(f) == Validate(g)
  {
  }

  /** The rules are independent: a forecast failing both reports both, the
      date rule first. */
  lemma BothRulesReported(f: Forecast)
    requires f.date == DefaultDate && f.temperatureC == 0
    ensures Validate(f) == [DateRequired, TemperatureRequired]
  {
  }
}
