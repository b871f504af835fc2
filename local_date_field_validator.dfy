/** `LocalDateFieldValidator`: static factories that seed a `FieldValidator`
    over dates, and comparison builders. Each builder constructs a new
    validator holding only its own comparison: the receiver's checks are
    not carried over, so a chain such as `nonNull().before(d)` keeps only
    the last step. */
module LocalDateFieldValidators {
  import opened Chain
  import opened FieldResults
  import opened FieldValidators
  import Seeds
  import TemporalChecks

  /** `new LocalDateFieldValidator(predicate, terminate, errorOn, message)` */
  method Start(c: Check<int>) returns (r: FieldValidator<int>)
    ensures fresh(r) && r.vals == [c]
  {
    r := new FieldValidator(c.test, c.terminate, c.errorOn, c.message);
  }

  method NonNull() returns (r: FieldValidator<int>)
    ensures fresh(r) && r.vals == [Seeds.NonNull("local date value must be non null")]
  {
    r := Start(Seeds.NonNull("local date value must be non null"));
  }

  method IsNull() returns (r: FieldValidator<int>)
    ensures fresh(r) && r.vals == [Seeds.IsNull("local date value must be null")]
  {
    r := Start(Seeds.IsNull("local date value must be null"));
  }

  method Optional() returns (r: FieldValidator<int>)
    ensures fresh(r) && r.vals == [Seeds.RequirePresent()]
  {
    r := Start(Seeds.RequirePresent());
  }

  /** `v.before(date)`: a fresh validator whatever `v` holds. */
  method Before(v: FieldValidator<int>, date: int, dateText: string) returns (r: FieldValidator<int>)
    ensures fresh(r) && r.vals == [TemporalChecks.Before(date, dateText)]
  {
    r := Start(TemporalChecks.Before(date, dateText));
  }

  method After(v: FieldValidator<int>, date: int, dateText: string) returns (r: FieldValidator<int>)
    ensures fresh(r) && r.vals == [TemporalChecks.After(date, dateText)]
  {
    r := Start(TemporalChecks.After(date, dateText));
  }

  method BeforeOrEqual(v: FieldValidator<int>, date: int, dateText: string) returns (r: FieldValidator<int>)
    ensures fresh(r) && r.vals == [TemporalChecks.BeforeOrEqual(date, dateText)]
  {
    r := Start(TemporalChecks.BeforeOrEqual(date, dateText));
  }

  method AfterOrEqual(v: FieldValidator<int>, date: int, dateText: string) returns (r: FieldValidator<int>)
    ensures fresh(r) && r.vals == [TemporalChecks.AfterOrEqual(date, dateText)]
  {
    r := Start(TemporalChecks.AfterOrEqual(date, dateText));
  }

  method Equal(v: FieldValidator<int>, date: int, dateText: string) returns (r: FieldValidator<int>)
    ensures fresh(r) && r.vals == [TemporalChecks.Equal(date, dateText)]
  {
    r := Start(TemporalChecks.Equal(date, dateText));
  }

  method NotEqual(v: FieldValidator<int>, date: int, dateText: string) returns (r: FieldValidator<int>)
    ensures fresh(r) && r.vals == [TemporalChecks.NotEqual(date, dateText)]
  {
    r := Start(TemporalChecks.NotEqual(date, dateText));
  }

  /** `nonNull().before(date)` on null: the `nonNull` seed was dropped, so
      the comparison dereferences null and `validate` throws. */
  method NonNullBeforeOnNull(date: int, dateText: string) returns (r: Outcome<FieldResult>)
    ensures r == NullPointerException
  {
    var v := NonNull();
    v := Before(v, date, dateText);
    r := v.Validate("date", Null);
    var none: seq<Check<int>> := [];
    assert v.vals == [TemporalChecks.Before(date, dateText)] + none;
  }

  /** `nonNull().after(lo).before(hi)`: only `before(hi)` is checked, so a
      date on or before `lo` is still valid when it precedes `hi`. */
  method AfterThenBefore(lo: int, loText: string, hi: int, hiText: string, d: int) returns (r: Outcome<FieldResult>)
    ensures r == Returned(if d < hi then Ok("date") else FieldResults.Fail("date", "must be before " + hiText))
  {
    var v := NonNull();
    v := After(v, lo, loText);
    v := Before(v, hi, hiText);
    r := v.Validate("date", Present(d));
    SingleCheck(TemporalChecks.Before(hi, hiText), "date", Present(d));
  }

  /** `equal(date)` and `notEqual(date)` each give a one-check validator:
      exactly one accepts `d`, and the other fails with its own message. */
  lemma EqualOrNotEqual(field: string, date: int, dateText: string, d: int)
    ensures Validation([TemporalChecks.Equal(date, dateText)], field, Present(d)) ==
              Returned(if d == date then Ok(field) else FieldResults.Fail(field, "must be equal " + dateText))
    ensures Validation([TemporalChecks.NotEqual(date, dateText)], field, Present(d)) ==
              Returned(if d != date then Ok(field) else FieldResults.Fail(field, "must be not equal " + dateText))
  {
    var none: seq<Check<int>> := [];
    assert Validation(none, field, Present(d)) == Returned(Ok(field));
    OppositeChecks(none, TemporalChecks.Equal(date, dateText), TemporalChecks.NotEqual(date, dateText), field, Present(d));
    assert none + [TemporalChecks.Equal(date, dateText)] == [TemporalChecks.Equal(date, dateText)];
    assert none + [TemporalChecks.NotEqual(date, dateText)] == [TemporalChecks.NotEqual(date, dateText)];
  }
}
