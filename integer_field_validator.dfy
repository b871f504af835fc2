/** `IntegerFieldValidator`: static factories that seed a `FieldValidator`
    over integers, and builders that append to the receiver in place through
    `add` and return it. */
module IntegerFieldValidators {
  import opened Chain
  import opened FieldResults
  import opened FieldValidators
  import Seeds
  import IntegerChecks

  /** `new IntegerFieldValidator(predicate, terminate, errorOn, message)` */
  method Start(c: Check<int>) returns (r: FieldValidator<int>)
    ensures fresh(r) && r.vals == [c]
  {
    r := new FieldValidator(c.test, c.terminate, c.errorOn, c.message);
  }

  /** `(IntegerFieldValidator) this.add(predicate, terminate, errorOn, message)` */
  method Append(v: FieldValidator<int>, c: Check<int>) returns (r: FieldValidator<int>)
    modifies v
    ensures r == v && v.vals == old(v.vals) + [c]
  {
    r := v.Add(c.test, c.terminate, c.errorOn, c.message);
  }

  method NonNull() returns (r: FieldValidator<int>)
    ensures fresh(r) && r.vals == [Seeds.NonNull("integer value must be non null")]
  {
    r := Start(Seeds.NonNull("integer value must be non null"));
  }

  method IsNull() returns (r: FieldValidator<int>)
    ensures fresh(r) && r.vals == [Seeds.IsNull("must be null")]
  {
    r := Start(Seeds.IsNull("must be null"));
  }

  method Optional() returns (r: FieldValidator<int>)
    ensures fresh(r) && r.vals == [Seeds.RequirePresent()]
  {
    r := Start(Seeds.RequirePresent());
  }

  method LowerThan(v: FieldValidator<int>, max: int) returns (r: FieldValidator<int>)
    modifies v
    ensures r == v && v.vals == old(v.vals) + [IntegerChecks.LowerThan(max)]
  {
    r := Append(v, IntegerChecks.LowerThan(max));
  }

  method GreaterThan(v: FieldValidator<int>, min: int) returns (r: FieldValidator<int>)
    modifies v
    ensures r == v && v.vals == old(v.vals) + [IntegerChecks.GreaterThan(min)]
  {
    r := Append(v, IntegerChecks.GreaterThan(min));
  }

  /** `greaterThan(min).lowerThan(max)`: the lower bound first. */
  method Between(v: FieldValidator<int>, min: int, max: int) returns (r: FieldValidator<int>)
    modifies v
    ensures r == v && v.vals == old(v.vals) + [IntegerChecks.GreaterThan(min), IntegerChecks.LowerThan(max)]
  {
    var lower := GreaterThan(v, min);
    r := LowerThan(lower, max);
  }

  method Equals(v: FieldValidator<int>, value: int) returns (r: FieldValidator<int>)
    modifies v
    ensures r == v && v.vals == old(v.vals) + [IntegerChecks.Equals(value)]
  {
    r := Append(v, IntegerChecks.Equals(value));
  }

  method NotEquals(v: FieldValidator<int>, value: int) returns (r: FieldValidator<int>)
    modifies v
    ensures r == v && v.vals == old(v.vals) + [IntegerChecks.NotEquals(value)]
  {
    r := Append(v, IntegerChecks.NotEquals(value));
  }

  /** The reasons the two bound checks give for `x`, lower bound first. */
  function BoundReasons(min: int, max: int, x: int): seq<string> {
    (if x <= min then [IntegerChecks.GreaterThan(min).message] else []) +
    (if x >= max then [IntegerChecks.LowerThan(max).message] else [])
  }

  /** `between(min, max)` after any checks that let `x` through: the result
      is invalid iff those checks fail or `x` is outside the open interval
      `(min, max)`, and the bound messages follow the earlier reasons. */
  lemma BetweenOutcome(checks: seq<Check<int>>, field: string, min: int, max: int, x: int)
    requires !StopsWithin(checks, Present(x)) && Validation(checks, field, Present(x)).Returned?
    ensures Validation(checks + [IntegerChecks.GreaterThan(min), IntegerChecks.LowerThan(max)], field, Present(x)) ==
              Returned(FieldResult(Validation(checks, field, Present(x)).value.valid && min < x < max,
                                   field,
                                   Validation(checks, field, Present(x)).value.reasons + BoundReasons(min, max, x)))
  {
    var lo, hi := IntegerChecks.GreaterThan(min), IntegerChecks.LowerThan(max);
    EvalTwo(lo, hi, Present(x));
    ValidationAppend(checks, [lo, hi], field, Present(x));
  }

  /** `v = nonNull(); v.between(18, 65)`, then `v.validate` on 18: the
      bounds added through the builder are on `v` itself, and the lower
      bound is exclusive. */
  method AgeOnLowerBound() returns (r: Outcome<FieldResult>)
    ensures r == Returned(FieldResults.Fail("age", "must be greather than 18."))
  {
    var v := NonNull();
    var w := Between(v, 18, 65);
    r := v.Validate("age", Present(18));
    AgeOnLowerBoundOutcome();
  }

  lemma AgeOnLowerBoundOutcome()
    ensures Validation([Seeds.NonNull("integer value must be non null"), IntegerChecks.GreaterThan(18), IntegerChecks.LowerThan(65)], "age", Present(18))
            == Returned(FieldResults.Fail("age", "must be greather than 18."))
  {
    var bounds := [IntegerChecks.GreaterThan(18), IntegerChecks.LowerThan(65)];
    assert [Seeds.NonNull("integer value must be non null")] + bounds ==
           [Seeds.NonNull("integer value must be non null"), IntegerChecks.GreaterThan(18), IntegerChecks.LowerThan(65)];
    Seeds.NonNullAdmitsValue("integer value must be non null", bounds, "age", 18);
    var none: seq<Check<int>> := [];
    assert Validation(none, "age", Present(18)) == Returned(Ok("age"));
    BetweenOutcome(none, "age", 18, 65, 18);
    assert none + bounds == bounds;
    IntegerChecks.BoundMessages();
    assert BoundReasons(18, 65, 18) == ["must be greather than 18."];
  }

  /** `optional().between(min, max)` on null: invalid with no reason, and the
      bound checks (which would throw on null) are never called. */
  method OptionalOnNull(min: int, max: int) returns (r: Outcome<FieldResult>)
    ensures r == Returned(FailWith("age", []))
  {
    var v := Optional();
    v := Between(v, min, max);
    r := v.Validate("age", Null);
    Seeds.RequirePresentRejectsNull([IntegerChecks.GreaterThan(min), IntegerChecks.LowerThan(max)], "age");
    assert v.vals == [Seeds.RequirePresent()] + [IntegerChecks.GreaterThan(min), IntegerChecks.LowerThan(max)];
  }

  /** `equals(value)` and `notEquals(value)` added to checks that accept `x`:
      exactly one accepts `x`, and the other fails with its own message alone. */
  lemma EqualsOrNotEquals(checks: seq<Check<int>>, field: string, value: int, x: int)
    requires !StopsWithin(checks, Present(x)) && Validation(checks, field, Present(x)) == Returned(Ok(field))
    ensures Validation(checks + [IntegerChecks.Equals(value)], field, Present(x)) ==
              Returned(if x == value then Ok(field) else FieldResults.Fail(field, IntegerChecks.Equals(value).message))
    ensures Validation(checks + [IntegerChecks.NotEquals(value)], field, Present(x)) ==
              Returned(if x != value then Ok(field) else FieldResults.Fail(field, IntegerChecks.NotEquals(value).message))
  {
    OppositeChecks(checks, IntegerChecks.Equals(value), IntegerChecks.NotEquals(value), field, Present(x));
  }
}
