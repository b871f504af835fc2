/** `IntegerValidator`: static factories that seed a `Validator` over
    integers, and builders that append to the receiver in place through `add`
    and return it. */
module IntegerValidators {
  import opened Chain
  import opened Results
  import opened Validators
  import FieldValidators
  import Seeds
  import IntegerChecks
  import IntegerFieldValidators

  /** `new IntegerValidator(predicate, terminate, errorOn, message)` */
  method Start(c: Check<int>) returns (r: Validator<int>)
    ensures fresh(r) && r.vals == [c]
  {
    r := new Validator(c.test, c.terminate, c.errorOn, c.message);
  }

  /** `(IntegerValidator) this.add(predicate, terminate, errorOn, message)` */
  method Append(v: Validator<int>, c: Check<int>) returns (r: Validator<int>)
    modifies v
    ensures r == v && v.vals == old(v.vals) + [c]
  {
    r := v.Add(c.test, c.terminate, c.errorOn, c.message);
  }

  method NonNull() returns (r: Validator<int>)
    ensures fresh(r) && r.vals == [Seeds.NonNull("integer value must be non null")]
  {
    r := Start(Seeds.NonNull("integer value must be non null"));
  }

  method IsNull() returns (r: Validator<int>)
    ensures fresh(r) && r.vals == [Seeds.IsNull("must be null")]
  {
    r := Start(Seeds.IsNull("must be null"));
  }

  method Optional() returns (r: Validator<int>)
    ensures fresh(r) && r.vals == [Seeds.RequirePresent()]
  {
    r := Start(Seeds.RequirePresent());
  }

  method LowerThan(v: Validator<int>, max: int) returns (r: Validator<int>)
    modifies v
    ensures r == v && v.vals == old(v.vals) + [IntegerChecks.LowerThan(max)]
  {
    r := Append(v, IntegerChecks.LowerThan(max));
  }

  method GreaterThan(v: Validator<int>, min: int) returns (r: Validator<int>)
    modifies v
    ensures r == v && v.vals == old(v.vals) + [IntegerChecks.GreaterThan(min)]
  {
    r := Append(v, IntegerChecks.GreaterThan(min));
  }

  /** `greaterThan(min).lowerThan(max)`: the lower bound first. */
  method Between(v: Validator<int>, min: int, max: int) returns (r: Validator<int>)
    modifies v
    ensures r == v && v.vals == old(v.vals) + [IntegerChecks.GreaterThan(min), IntegerChecks.LowerThan(max)]
  {
    var lower := GreaterThan(v, min);
    r := LowerThan(lower, max);
  }

  method Equals(v: Validator<int>, value: int) returns (r: Validator<int>)
    modifies v
    ensures r == v && v.vals == old(v.vals) + [IntegerChecks.Equals(value)]
  {
    r := Append(v, IntegerChecks.Equals(value));
  }

  method NotEquals(v: Validator<int>, value: int) returns (r: Validator<int>)
    modifies v
    ensures r == v && v.vals == old(v.vals) + [IntegerChecks.NotEquals(value)]
  {
    r := Append(v, IntegerChecks.NotEquals(value));
  }

  /** `between(min, max)` after any checks that let `x` through: the result
      is invalid iff those checks fail or `x` is outside the open interval
      `(min, max)`, and the bound messages follow the earlier reasons. */
  lemma BetweenOutcome(checks: seq<Check<int>>, field: string, min: int, max: int, x: int)
    requires !StopsWithin(checks, Present(x)) && Testing(checks, field, Present(x)).Returned?
    ensures Testing(checks + [IntegerChecks.GreaterThan(min), IntegerChecks.LowerThan(max)], field, Present(x)) ==
              Returned(Result(Testing(checks, field, Present(x)).value.valid && min < x < max,
                              field,
                              Testing(checks, field, Present(x)).value.reasons + IntegerFieldValidators.BoundReasons(min, max, x)))
  {
    var all := checks + [IntegerChecks.GreaterThan(min), IntegerChecks.LowerThan(max)];
    TestAgreesWithValidate(checks, field, Present(x));
    TestAgreesWithValidate(all, field, Present(x));
    IntegerFieldValidators.BetweenOutcome(checks, field, min, max, x);
  }

  /** `optional()` on null: `Result(false, field, [])`, whatever follows. */
  method OptionalOnNull(min: int, max: int) returns (r: Outcome<Result>)
    ensures r == Returned(Result(false, "age", []))
  {
    var v := Optional();
    v := Between(v, min, max);
    r := v.Test("age", Null);
    Seeds.RequirePresentRejectsNull([IntegerChecks.GreaterThan(min), IntegerChecks.LowerThan(max)], "age");
    assert v.vals == [Seeds.RequirePresent()] + [IntegerChecks.GreaterThan(min), IntegerChecks.LowerThan(max)];
  }

  /** `nonNull()` on null: `Result(false, field, ["integer value must be non
      null"])`; the bound checks after it are never called. */
  method NonNullOnNull(min: int, max: int) returns (r: Outcome<Result>)
    ensures r == Returned(Results.Fail("age", "integer value must be non null"))
  {
    var v := NonNull();
    v := Between(v, min, max);
    r := v.Test("age", Null);
    Seeds.NonNullRejectsNull("integer value must be non null", [IntegerChecks.GreaterThan(min), IntegerChecks.LowerThan(max)], "age");
    assert v.vals == [Seeds.NonNull("integer value must be non null")] + [IntegerChecks.GreaterThan(min), IntegerChecks.LowerThan(max)];
  }
}
