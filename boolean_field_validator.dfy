/** `BooleanFieldValidator`: static factories that seed a `FieldValidator`
    over booleans, and builders that return a new validator holding the
    receiver's checks plus one. Each builder's predicate unboxes its
    `Boolean` argument, so it throws on null. */
module BooleanFieldValidators {
  import opened Chain
  import opened FieldResults
  import opened FieldValidators
  import Seeds
  import Messages

  /** The check `isTrue()` appends. */
  function IsTrueCheck(): Check<bool> {
    Check(OnValue((b: bool) => b == true), Terminate.None, ErrorOn.Failure, "should be true")
  }

  /** The check `isFalse()` appends. */
  function IsFalseCheck(): Check<bool> {
    Check(OnValue((b: bool) => b == false), Terminate.None, ErrorOn.Failure, "should be false")
  }

  /** The check `equals(value)` appends. */
  function EqualsCheck(value: bool): Check<bool> {
    Check(OnValue((b: bool) => b == value), Terminate.None, ErrorOn.Failure,
          "should be equal to " + Messages.BoolToString(value))
  }

  /** The check `notEquals(value)` appends. */
  function NotEqualsCheck(value: bool): Check<bool> {
    Check(OnValue((b: bool) => b != value), Terminate.None, ErrorOn.Failure,
          "should not be equal to " + Messages.BoolToString(value))
  }

  /** `new BooleanFieldValidator(predicate, terminate, errorOn, message)` */
  method Start(c: Check<bool>) returns (r: FieldValidator<bool>)
    ensures fresh(r) && r.vals == [c]
  {
    r := new FieldValidator(c.test, c.terminate, c.errorOn, c.message);
  }

  /** `new BooleanFieldValidator(this, predicate, terminate, errorOn, message)` */
  method Extend(v: FieldValidator<bool>, c: Check<bool>) returns (r: FieldValidator<bool>)
    ensures fresh(r) && r.vals == v.vals + [c]
  {
    r := new FieldValidator.Extend(v, c.test, c.terminate, c.errorOn, c.message);
  }

  method NonNull() returns (r: FieldValidator<bool>)
    ensures fresh(r) && r.vals == [Seeds.NonNull("should not be null")]
  {
    r := Start(Seeds.NonNull("should not be null"));
  }

  method IsNull() returns (r: FieldValidator<bool>)
    ensures fresh(r) && r.vals == [Seeds.IsNull("should be null")]
  {
    r := Start(Seeds.IsNull("should be null"));
  }

  method Optional() returns (r: FieldValidator<bool>)
    ensures fresh(r) && r.vals == [Seeds.SkipIfNull()]
  {
    r := Start(Seeds.SkipIfNull());
  }

  method IsTrue(v: FieldValidator<bool>) returns (r: FieldValidator<bool>)
    ensures fresh(r) && r.vals == v.vals + [IsTrueCheck()]
  {
    r := Extend(v, IsTrueCheck());
  }

  method IsFalse(v: FieldValidator<bool>) returns (r: FieldValidator<bool>)
    ensures fresh(r) && r.vals == v.vals + [IsFalseCheck()]
  {
    r := Extend(v, IsFalseCheck());
  }

  method Equals(v: FieldValidator<bool>, value: bool) returns (r: FieldValidator<bool>)
    ensures fresh(r) && r.vals == v.vals + [EqualsCheck(value)]
  {
    r := Extend(v, EqualsCheck(value));
  }

  method NotEquals(v: FieldValidator<bool>, value: bool) returns (r: FieldValidator<bool>)
    ensures fresh(r) && r.vals == v.vals + [NotEqualsCheck(value)]
  {
    r := Extend(v, NotEqualsCheck(value));
  }

  /** `isTrue()` fails exactly on `false`, `isFalse()` exactly on `true`:
      on every value exactly one of them fails. */
  lemma TrueFalseComplementary(b: bool)
    ensures IsTrueCheck().test(Present(b)) == Fail <==> !b
    ensures IsFalseCheck().test(Present(b)) == Fail <==> b
    ensures IsTrueCheck().test(Present(b)) == Fail <==> IsFalseCheck().test(Present(b)) == Pass
  {
  }

  /** `equals(x)` and `notEquals(x)` are complementary on every value, and
      `equals(true)` decides like `isTrue()`. */
  lemma EqualsComplementary(value: bool, b: bool)
    ensures EqualsCheck(value).test(Present(b)) == Fail <==> NotEqualsCheck(value).test(Present(b)) == Pass
    ensures EqualsCheck(value).test(Present(b)) != Crash && NotEqualsCheck(value).test(Present(b)) != Crash
    ensures EqualsCheck(true).test(Present(b)) == IsTrueCheck().test(Present(b))
  {
  }

  /** `optional().isTrue()` on a value is invalid whatever the value; only a
      `false` value also reports "should be true". */
  method OptionalIsTrue(b: bool) returns (r: Outcome<FieldResult>)
    ensures r == Returned(FailWith("flag", if b then [] else ["should be true"]))
  {
    var v := Optional();
    v := IsTrue(v);
    r := v.Validate("flag", Present(b));
    Seeds.SkipIfNullRejectsValue([IsTrueCheck()], "flag", b);
    EvalOne(IsTrueCheck(), Present(b));
  }

  /** `optional().isTrue()` on null is valid: the seed stops the run before
      the unboxing check. */
  method OptionalIsTrueOnNull() returns (r: Outcome<FieldResult>)
    ensures r == Returned(Ok("flag"))
  {
    var v := Optional();
    v := IsTrue(v);
    r := v.Validate("flag", Null);
    Seeds.SkipIfNullAcceptsNull([IsTrueCheck()], "flag");
  }

  /** `isTrue()` and `isFalse()` added to checks that accept `b`: the one
      matching `b` accepts it, and the other fails with its own message alone. */
  lemma TrueOrFalse(checks: seq<Check<bool>>, field: string, b: bool)
    requires !StopsWithin(checks, Present(b)) && Validation(checks, field, Present(b)) == Returned(Ok(field))
    ensures Validation(checks + [IsTrueCheck()], field, Present(b)) ==
              Returned(if b then Ok(field) else FieldResults.Fail(field, "should be true"))
    ensures Validation(checks + [IsFalseCheck()], field, Present(b)) ==
              Returned(if !b then Ok(field) else FieldResults.Fail(field, "should be false"))
  {
    OppositeChecks(checks, IsTrueCheck(), IsFalseCheck(), field, Present(b));
  }
}
