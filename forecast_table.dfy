/** What the two WeatherForecast controllers share: the action results they
    return instead of HTTP responses, and the id lookups they run over their
    in-memory `forecast` table. */
module ForecastTable {
  import opened Primitives
  import opened Forecasts
  import opened DtoValidator
  import Linq

  /** The body of a 400 or 404 response: a ProblemDetails object, or the
      plain property-to-messages dictionary the V1 validation failures return
      (no ProblemDetails envelope). */
  datatype Problem =
    | ProblemDetails(title: string, detail: string, status: int)
    | ErrorDictionary(errors: map<string, seq<string>>)

  /** IActionResult, as far as these controllers produce it. */
  datatype ActionResult =
    | Ok(forecasts: seq<Forecast>)
    | OkItem(item: Forecast)
    | Created(created: Forecast)
    | NoContent
    | BadRequest(problem: Problem)
    | NotFound(problem: Problem)

  /** ValidationResult.ToDictionary(): the failure messages grouped by
      property name, each group in the order the failures occur. */
  function ToDictionary(errors: seq<ValidationError>): (d: map<string, seq<string>>)
    decreases |errors|
  {
    if |errors| == 0 then map[]
    else
      var d := ToDictionary(errors[..|errors| - 1]);
      var e := errors[|errors| - 1];
      d[e.propertyName := (if e.propertyName in d then d[e.propertyName] else []) + [e.errorMessage]]
  }

  /** Every failure's message is filed under its property, every key is the
      property of some failure, and every filed message comes from a failure
      of that property. */
  lemma {:induction false} ToDictionaryFacts(errors: seq<ValidationError>)
    ensures forall e | e in errors :: e.propertyName in ToDictionary(errors) && e.errorMessage in ToDictionary(errors)[e.propertyName]
    ensures forall k | k in ToDictionary(errors) :: exists e | e in errors :: e.propertyName == k
    ensures forall k | k in ToDictionary(errors) :: forall m | m in ToDictionary(errors)[k] :: ValidationError(k, m) in errors
    decreases |errors|
  {
    if |errors| > 0 {
      var init := errors[..|errors| - 1];
      var e := errors[|errors| - 1];
      assert errors == init + [e];
      ToDictionaryFacts(init);
      var d := ToDictionary(init);
      var d' := ToDictionary(errors);
      assert d' == d[e.propertyName := (if e.propertyName in d then d[e.propertyName] else []) + [e.errorMessage]];
      forall x | x in errors
        ensures x.propertyName in d' && x.errorMessage in d'[x.propertyName]
      {
        if x != e {
          assert x in init;
        }
      }
      forall k | k in d'
        ensures exists x | x in errors :: x.propertyName == k
      {
        if k != e.propertyName {
          var x :| x in init && x.propertyName == k;
          assert x in errors;
        }
      }
      forall k, m | k in d' && m in d'[k]
        ensures ValidationError(k, m) in errors
      {
        if k != e.propertyName || m != e.errorMessage {
          assert ValidationError(k, m) in init;
        }
      }
    }
  }

  /** The messages of the failures of property k, in failure order and with
      repeats: the group ToDictionary files under k. */
  function MessagesFor(errors: seq<ValidationError>, k: string): (messages: seq<string>)
  {
    if |errors| == 0 then []
    else (if errors[0].propertyName == k then [errors[0].errorMessage] else []) + MessagesFor(errors[1..], k)
  }

  /** A failure added at the end adds its message at the end of its group. */
  lemma {:induction false} MessagesForSnoc(a: seq<ValidationError>, e: ValidationError, k: string)
    ensures MessagesFor(a + [e], k) == MessagesFor(a, k) + (if e.propertyName == k then [e.errorMessage] else [])
  {
    var tail: seq<string> := if e.propertyName == k then [e.errorMessage] else [];
    if |a| == 0 {
      assert a + [e] == [e] && [e][1..] == [];
      assert MessagesFor([e], k) == tail + MessagesFor([], k);
    } else {
      assert (a + [e])[0] == a[0] && (a + [e])[1..] == a[1..] + [e];
      MessagesForSnoc(a[1..], e, k);
      var head: seq<string> := if a[0].propertyName == k then [a[0].errorMessage] else [];
      assert MessagesFor(a + [e], k) == head + (MessagesFor(a[1..], k) + tail);
      assert head + (MessagesFor(a[1..], k) + tail) == (head + MessagesFor(a[1..], k)) + tail;
    }
  }

  /** ToDictionary groups the failures by property: a property is a key
      exactly when it has a failure, and its entry is the messages of its
      failures in order, repeats included. */
  lemma {:induction false} ToDictionaryGroups(errors: seq<ValidationError>)
    ensures forall k :: k in ToDictionary(errors) <==> MessagesFor(errors, k) != []
    ensures forall k | k in ToDictionary(errors) :: ToDictionary(errors)[k] == MessagesFor(errors, k)
    decreases |errors|
  {
    if |errors| > 0 {
      var init := errors[..|errors| - 1];
      var e := errors[|errors| - 1];
      assert errors == init + [e];
      ToDictionaryGroups(init);
      var d := ToDictionary(init);
      assert ToDictionary(errors) == d[e.propertyName := (if e.propertyName in d then d[e.propertyName] else []) + [e.errorMessage]];
      forall k
        ensures k in ToDictionary(errors) <==> MessagesFor(errors, k) != []
        ensures k in ToDictionary(errors) ==> ToDictionary(errors)[k] == MessagesFor(errors, k)
      {
        MessagesForSnoc(init, e, k);
      }
    }
  }

  /** The dictionary of DtoValidator's failures: one entry per failing rule,
      holding that rule's message alone. */
  lemma ValidationDictionary(f: Forecast)
    ensures ToDictionary(Validate(f)).Keys ==
      (if f.date == DefaultDate then {"Date"} else {}) + (if f.temperatureC == 0 then {"TemperatureC"} else {})
    ensures f.date == DefaultDate ==> ToDictionary(Validate(f))["Date"] == ["Date is required"]
    ensures f.temperatureC == 0 ==> ToDictionary(Validate(f))["TemperatureC"] == ["TemperatureC is required"]
  {
    var d := ToDictionary(Validate(f));
    var dateEntry, temperatureEntry := ["Date is required"], ["TemperatureC is required"];
    if f.date == DefaultDate && f.temperatureC == 0 {
      BothRulesReported(f);
      TwoErrorDictionary(DateRequired, TemperatureRequired);
      assert d == map["Date" := dateEntry, "TemperatureC" := temperatureEntry];
    } else if f.date == DefaultDate {
      assert Validate(f) == [DateRequired];
      SingleErrorDictionary(DateRequired);
      assert d == map["Date" := dateEntry];
    } else if f.temperatureC == 0 {
      assert Validate(f) == [TemperatureRequired];
      SingleErrorDictionary(TemperatureRequired);
      assert d == map["TemperatureC" := temperatureEntry];
    } else {
      assert Validate(f) == [];
    }
  }

  /** A single failure gives a dictionary with its one message. */
  lemma SingleErrorDictionary(e: ValidationError)
    ensures ToDictionary([e]) == map[e.propertyName := [e.errorMessage]]
  {
    var none: seq<ValidationError> := [];
    assert [e][..0] == none && ToDictionary(none) == map[];
    assert [] + [e.errorMessage] == [e.errorMessage];
  }

  /** Two failures of different properties give one entry each. */
  lemma TwoErrorDictionary(a: ValidationError, b: ValidationError)
    requires a.propertyName != b.propertyName
    ensures ToDictionary([a, b]) == map[a.propertyName := [a.errorMessage], b.propertyName := [b.errorMessage]]
  {
    assert [a, b][..1] == [a];
    SingleErrorDictionary(a);
    assert [] + [b.errorMessage] == [b.errorMessage];
  }

  const IdRequired := BadRequest(ProblemDetails("Bad Request", "Id is required.", 400))
  const ForecastRequired := BadRequest(ProblemDetails("Bad Request", "Weather forecast is required.", 400))
  const ForecastNotFound := NotFound(ProblemDetails("Not Found", "Weather forecast not found.", 404))

  /** The lambda `x => x.Id == id`. */
  function IdIs(id: string): Forecast -> bool
  {
    (x: Forecast) => x.id == Some(id)
  }

  /** The lambda `x => x.Id != id`. */
  function IdIsNot(id: string): Forecast -> bool
  {
    (x: Forecast) => x.id != Some(id)
  }

  ghost predicate HasId(s: seq<Forecast>, id: string)
  {
    exists i | 0 <= i < |s| :: s[i].id == Some(id)
  }

  /** k is the position of the element `FirstOrDefault(x => x.Id == id)` returns. */
  ghost predicate IsFirstMatch(s: seq<Forecast>, id: string, k: int)
  {
    0 <= k < |s| && s[k].id == Some(id) && forall j | 0 <= j < k :: s[j].id != Some(id)
  }

  /** The position of the first row with this id, or None when no row has it. */
  function FindFirst(s: seq<Forecast>, id: string): (r: Option<nat>)
    ensures r.Some? ==> IsFirstMatch(s, id, r.value)
    ensures r.None? <==> !HasId(s, id)
  {
    Linq.IndexOfFirst(s, IdIs(id))
  }

  /** The first match is unique, so the contracts above pin the row down. */
  lemma FirstMatchUnique(s: seq<Forecast>, id: string, k: int, m: int)
    requires IsFirstMatch(s, id, k) && IsFirstMatch(s, id, m)
    ensures k == m
  {
  }

  /** `forecast.Where(x => x.Id != id).ToArray()`. */
  function RemoveId(s: seq<Forecast>, id: string): (r: seq<Forecast>)
    ensures !HasId(r, id)
    ensures forall x | x in r :: x in s
    ensures forall x | x in s && x.id != Some(id) :: multiset(r)[x] == multiset(s)[x]
    ensures |r| < |s| <==> HasId(s, id)
  {
    var r := Linq.Where(s, IdIsNot(id));
    assert |r| < |s| <==> HasId(s, id) by {
      if HasId(s, id) {
        var i :| 0 <= i < |s| && s[i].id == Some(id);
        assert s[i] in s && multiset(r)[s[i]] == 0;
        assert multiset(r) != multiset(s);
        if |r| == |s| {
          WhereFullLength(s, IdIsNot(id));
        }
      } else {
        Linq.WhereAll(s, IdIsNot(id));
      }
    }
    r
  }

  /** A Where that keeps as many elements as it was given keeps them all. */
  lemma {:induction false} WhereFullLength(s: seq<Forecast>, p: Forecast -> bool)
    requires |Linq.Where(s, p)| == |s|
    ensures Linq.Where(s, p) == s
    decreases |s|
  {
    if |s| > 0 {
      assert s == [s[0]] + s[1..];
      WhereFullLength(s[1..], p);
    }
  }

  /** Removal keeps the surviving rows in their relative order. */
  lemma RemoveIdConcat(a: seq<Forecast>, b: seq<Forecast>, id: string)
    ensures RemoveId(a + b, id) == RemoveId(a, id) + RemoveId(b, id)
  {
    Linq.WhereConcat(a, b, IdIsNot(id));
  }

  /** The row after `result.Date = ..., result.TemperatureC = ...,
      result.Summary = ...`: those three fields come from the body, the id and
      the Fahrenheit field stay. */
  function CopyEditableFields(target: Forecast, body: Forecast): (r: Forecast)
    ensures r.id == target.id && r.temperatureF == target.temperatureF
    ensures r.date == body.date && r.temperatureC == body.temperatureC && r.summary == body.summary
  {
    target.(date := body.date, temperatureC := body.temperatureC, summary := body.summary)
  }
}
