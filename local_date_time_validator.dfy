/** `LocalDateTimeValidator`: the three static factories that seed a
    `Validator` over date-times. It has no builders of its own. */
module LocalDateTimeValidators {
  import opened Chain
  import opened Results
  import opened Validators
  import Seeds

  /** `new LocalDateTimeValidator(predicate, terminate, errorOn, message)` */
  method Start(c: Check<int>) returns (r: Validator<int>)
    ensures fresh(r) && r.vals == [c]
  {
    r := new Validator(c.test, c.terminate, c.errorOn, c.message);
  }

  method NonNull() returns (r: Validator<int>)
    ensures fresh(r) && r.vals == [Seeds.NonNull("date value must be non null")]
  {
    r := Start(Seeds.NonNull("date value must be non null"));
  }

  method IsNull() returns (r: Validator<int>)
    ensures fresh(r) && r.vals == [Seeds.IsNull("date value must be null")]
  {
    r := Start(Seeds.IsNull("date value must be null"));
  }

  method Optional() returns (r: Validator<int>)
    ensures fresh(r) && r.vals == [Seeds.RequirePresent()]
  {
    r := Start(Seeds.RequirePresent());
  }

  /** `nonNull().test(field, t)`: `Result.ok` on any instant, a failure
      naming the seed's message on null. */
  method NonNullOn(t: Nullable<int>) returns (r: Outcome<Result>)
    ensures r == Returned(if t.Present? then Ok("at") else Results.Fail("at", "date value must be non null"))
  {
    var v := NonNull();
    r := v.Test("at", t);
    var none: seq<Check<int>> := [];
    assert v.vals == [Seeds.NonNull("date value must be non null")] + none;
    if t.Present? {
      Seeds.NonNullAdmitsValue("date value must be non null", none, "at", t.value);
    } else {
      Seeds.NonNullRejectsNull("date value must be non null", none, "at");
    }
  }

  /** `isNull().test(field, t)`: `Result.ok` on null, a failure naming the
      seed's message on any instant. */
  method IsNullOn(t: Nullable<int>) returns (r: Outcome<Result>)
    ensures r == Returned(if t.Null? then Ok("at") else Results.Fail("at", "date value must be null"))
  {
    var v := IsNull();
    r := v.Test("at", t);
    var none: seq<Check<int>> := [];
    assert v.vals == [Seeds.IsNull("date value must be null")] + none;
    if t.Present? {
      Seeds.IsNullRejectsValue("date value must be null", none, "at", t.value);
    } else {
      Seeds.IsNullAdmitsNull("date value must be null", none, "at");
    }
  }

  /** `optional().test(field, t)`: `Result.ok` on any instant, and on null
      an invalid result with no reason. */
  method OptionalOn(t: Nullable<int>) returns (r: Outcome<Result>)
    ensures r == Returned(if t.Present? then Ok("at") else Result(false, "at", []))
  {
    var v := Optional();
    r := v.Test("at", t);
    var none: seq<Check<int>> := [];
    assert v.vals == [Seeds.RequirePresent()] + none;
    if t.Present? {
      Seeds.RequirePresentAdmitsValue(none, "at", t.value);
    } else {
      Seeds.RequirePresentRejectsNull(none, "at");
    }
  }
}
