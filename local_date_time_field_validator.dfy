/** `LocalDateTimeFieldValidator`: static factories that seed a
    `FieldValidator` over date-times, and comparison builders. Each builder
    constructs a new validator holding only its own comparison: the
    receiver's checks are not carried over, so a chain such as
    `nonNull().before(t)` keeps only the last step. */
module LocalDateTimeFieldValidators {
  import opened Chain
  import opened FieldResults
  import opened FieldValidators
  import Seeds
  import TemporalChecks

  /** `new LocalDateTimeFieldValidator(predicate, terminate, errorOn, message)` */
  method Start(c: Check<int>) returns (r: FieldValidator<int>)
    ensures fresh(r) && r.vals == [c]
  {
    r := new FieldValidator(c.test, c.terminate, c.errorOn, c.message);
  }

  method NonNull() returns (r: FieldValidator<int>)
    ensures fresh(r) && r.vals == [Seeds.NonNull("local date time value must be non null")]
  {
    r := Start(Seeds.NonNull("local date time value must be non null"));
  }

  method IsNull() returns (r: FieldValidator<int>)
    ensures fresh(r) && r.vals == [Seeds.IsNull("local date time value must be null")]
  {
    r := Start(Seeds.IsNull("local date time value must be null"));
  }

  method Optional() returns (r: FieldValidator<int>)
    ensures fresh(r) && r.vals == [Seeds.RequirePresent()]
  {
    r := Start(Seeds.RequirePresent());
  }

  /** `v.before(dateTime)`: a fresh validator whatever `v` holds. */
  method Before(v: FieldValidator<int>, dateTime: int, dateTimeText: string) returns (r: FieldValidator<int>)
    ensures fresh(r) && r.vals == [TemporalChecks.Before(dateTime, dateTimeText)]
  {
    r := Start(TemporalChecks.Before(dateTime, dateTimeText));
  }

  method After(v: FieldValidator<int>, dateTime: int, dateTimeText: string) returns (r: FieldValidator<int>)
    ensures fresh(r) && r.vals == [TemporalChecks.After(dateTime, dateTimeText)]
  {
    r := Start(TemporalChecks.After(dateTime, dateTimeText));
  }

  method BeforeOrEqual(v: FieldValidator<int>, dateTime: int, dateTimeText: string) returns (r: FieldValidator<int>)
    ensures fresh(r) && r.vals == [TemporalChecks.BeforeOrEqual(dateTime, dateTimeText)]
  {
    r := Start(TemporalChecks.BeforeOrEqual(dateTime, dateTimeText));
  }

  method AfterOrEqual(v: FieldValidator<int>, dateTime: int, dateTimeText: string) returns (r: FieldValidator<int>)
    ensures fresh(r) && r.vals == [TemporalChecks.AfterOrEqual(dateTime, dateTimeText)]
  {
    r := Start(TemporalChecks.AfterOrEqual(dateTime, dateTimeText));
  }

  method Equal(v: FieldValidator<int>, dateTime: int, dateTimeText: string) returns (r: FieldValidator<int>)
    ensures fresh(r) && r.vals == [TemporalChecks.Equal(dateTime, dateTimeText)]
  {
    r := Start(TemporalChecks.Equal(dateTime, dateTimeText));
  }

  method NotEqual(v: FieldValidator<int>, dateTime: int, dateTimeText: string) returns (r: FieldValidator<int>)
    ensures fresh(r) && r.vals == [TemporalChecks.NotEqual(dateTime, dateTimeText)]
  {
    r := Start(TemporalChecks.NotEqual(dateTime, dateTimeText));
  }

  /** `optional().after(dateTime)` on null: the `optional` seed was
      dropped, so the comparison dereferences null and `validate` throws
      instead of reporting an absent value. */
  method OptionalAfterOnNull(dateTime: int, dateTimeText: string) returns (r: Outcome<FieldResult>)
    ensures r == NullPointerException
  {
    var v := Optional();
    v := After(v, dateTime, dateTimeText);
    r := v.Validate("start", Null);
    var none: seq<Check<int>> := [];
    assert v.vals == [TemporalChecks.After(dateTime, dateTimeText)] + none;
  }

  /** `nonNull().equal(a).notEqual(b)`: only `notEqual(b)` is checked, so
      any instant other than `b` is valid, `a` or not. */
  method EqualThenNotEqual(a: int, aText: string, b: int, bText: string, t: int) returns (r: Outcome<FieldResult>)
    ensures r == Returned(if t != b then Ok("start") else FieldResults.Fail("start", "must be not equal " + bText))
  {
    var v := NonNull();
    v := Equal(v, a, aText);
    v := NotEqual(v, b, bText);
    r := v.Validate("start", Present(t));
    SingleCheck(TemporalChecks.NotEqual(b, bText), "start", Present(t));
  }
}
