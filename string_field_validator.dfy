/** `StringFieldValidator`: static factories that seed a `FieldValidator`
    over strings, and builders that return a new validator holding the
    receiver's checks plus one, leaving the receiver as it was. */
module StringFieldValidators {
  import opened Chain
  import opened FieldResults
  import opened FieldValidators
  import Seeds
  import StringChecks
  import Messages

  /** `new StringFieldValidator(predicate, terminate, errorOn, message)` */
  method Start(c: Check<string>) returns (r: FieldValidator<string>)
    ensures fresh(r) && r.vals == [c]
  {
    r := new FieldValidator(c.test, c.terminate, c.errorOn, c.message);
  }

  /** `new StringFieldValidator(this, predicate, terminate, errorOn, message)` */
  method Extend(v: FieldValidator<string>, c: Check<string>) returns (r: FieldValidator<string>)
    ensures fresh(r) && r.vals == v.vals + [c]
  {
    r := new FieldValidator.Extend(v, c.test, c.terminate, c.errorOn, c.message);
  }

  method NonNull() returns (r: FieldValidator<string>)
    ensures fresh(r) && r.vals == [Seeds.NonNull("should not be null")]
  {
    r := Start(Seeds.NonNull("should not be null"));
  }

  method IsNull() returns (r: FieldValidator<string>)
    ensures fresh(r) && r.vals == [Seeds.IsNull("should be null")]
  {
    r := Start(Seeds.IsNull("should be null"));
  }

  method Optional() returns (r: FieldValidator<string>)
    ensures fresh(r) && r.vals == [Seeds.SkipIfNull()]
  {
    r := Start(Seeds.SkipIfNull());
  }

  method MinLength(v: FieldValidator<string>, size: int) returns (r: FieldValidator<string>)
    ensures fresh(r) && r.vals == v.vals + [StringChecks.MinLength(size)]
  {
    r := Extend(v, StringChecks.MinLength(size));
  }

  method MaxLength(v: FieldValidator<string>, size: int) returns (r: FieldValidator<string>)
    ensures fresh(r) && r.vals == v.vals + [StringChecks.MaxLength(size)]
  {
    r := Extend(v, StringChecks.MaxLength(size));
  }

  /** `minLength(minSize).maxLength(maxSize)`: the lower bound first. */
  method LengthBetween(v: FieldValidator<string>, minSize: int, maxSize: int) returns (r: FieldValidator<string>)
    ensures fresh(r) && r.vals == v.vals + [StringChecks.MinLength(minSize), StringChecks.MaxLength(maxSize)]
  {
    var lower := MinLength(v, minSize);
    r := MaxLength(lower, maxSize);
  }

  method Contains(v: FieldValidator<string>, sub: string) returns (r: FieldValidator<string>)
    ensures fresh(r) && r.vals == v.vals + [StringChecks.Contains(sub)]
  {
    r := Extend(v, StringChecks.Contains(sub));
  }

  method Equals(v: FieldValidator<string>, value: string) returns (r: FieldValidator<string>)
    ensures fresh(r) && r.vals == v.vals + [StringChecks.Equals(value)]
  {
    r := Extend(v, StringChecks.Equals(value));
  }

  method NotEquals(v: FieldValidator<string>, value: string) returns (r: FieldValidator<string>)
    ensures fresh(r) && r.vals == v.vals + [StringChecks.NotEquals(value)]
  {
    r := Extend(v, StringChecks.NotEquals(value));
  }

  method IsEmpty(v: FieldValidator<string>) returns (r: FieldValidator<string>)
    ensures fresh(r) && r.vals == v.vals + [StringChecks.IsEmpty()]
  {
    r := Extend(v, StringChecks.IsEmpty());
  }

  method NotEmpty(v: FieldValidator<string>) returns (r: FieldValidator<string>)
    ensures fresh(r) && r.vals == v.vals + [StringChecks.NotEmpty()]
  {
    r := Extend(v, StringChecks.NotEmpty());
  }

  method MatchesRegex(v: FieldValidator<string>, regex: string, matches: string -> bool) returns (r: FieldValidator<string>)
    ensures fresh(r) && r.vals == v.vals + [StringChecks.MatchesRegex(regex, matches)]
  {
    r := Extend(v, StringChecks.MatchesRegex(regex, matches));
  }

  /** The reasons the two length bounds give for `s`, lower bound first. */
  function LengthReasons(minSize: int, maxSize: int, s: string): seq<string> {
    (if |s| < minSize then [StringChecks.MinLength(minSize).message] else []) +
    (if |s| > maxSize then [StringChecks.MaxLength(maxSize).message] else [])
  }

  /** `lengthBetween(a, b)` after any checks that let `s` through: the
      result is invalid iff those checks fail or `|s|` is outside `[a, b]`,
      and the bound messages follow the earlier reasons, lower bound first. */
  lemma LengthBetweenOutcome(checks: seq<Check<string>>, field: string, minSize: int, maxSize: int, s: string)
    requires !StopsWithin(checks, Present(s)) && Validation(checks, field, Present(s)).Returned?
    ensures Validation(checks + [StringChecks.MinLength(minSize), StringChecks.MaxLength(maxSize)], field, Present(s)) ==
              Returned(FieldResult(Validation(checks, field, Present(s)).value.valid && minSize <= |s| <= maxSize,
                                   field,
                                   Validation(checks, field, Present(s)).value.reasons + LengthReasons(minSize, maxSize, s)))
  {
    var lo, hi := StringChecks.MinLength(minSize), StringChecks.MaxLength(maxSize);
    EvalTwo(lo, hi, Present(s));
    ValidationAppend(checks, [lo, hi], field, Present(s));
  }

  /** `nonNull().lengthBetween(5, 20)` on the empty string: invalid with
      exactly the lower-bound message. */
  method EmptyUsername() returns (r: Outcome<FieldResult>)
    ensures r == Returned(FieldResults.Fail("username", "should have at least 5 characters"))
  {
    var v := NonNull();
    v := LengthBetween(v, 5, 20);
    r := v.Validate("username", Present(""));
    EmptyUsernameOutcome();
  }

  lemma EmptyUsernameOutcome()
    ensures Validation([Seeds.NonNull("should not be null"), StringChecks.MinLength(5), StringChecks.MaxLength(20)], "username", Present(""))
            == Returned(FieldResults.Fail("username", "should have at least 5 characters"))
  {
    var bounds := [StringChecks.MinLength(5), StringChecks.MaxLength(20)];
    assert [Seeds.NonNull("should not be null")] + bounds == [Seeds.NonNull("should not be null"), StringChecks.MinLength(5), StringChecks.MaxLength(20)];
    Seeds.NonNullAdmitsValue("should not be null", bounds, "username", "");
    var none: seq<Check<string>> := [];
    assert Validation(none, "username", Present("")) == Returned(Ok("username"));
    LengthBetweenOutcome(none, "username", 5, 20, "");
    assert none + bounds == bounds;
    MinLengthFive();
    assert LengthReasons(5, 20, "") == ["should have at least 5 characters"];
  }

  lemma MinLengthFive()
    ensures StringChecks.MinLength(5).message == "should have at least 5 characters"
  {
    assert Messages.NatToString(5) == "5";
  }

  /** `optional().matchesRegex(regex)` on a value: the seed check fails
      silently, so the result is invalid even when the value matches. */
  method OptionalMatching(regex: string, matches: string -> bool, s: string) returns (r: Outcome<FieldResult>)
    ensures r == Returned(FailWith("email", if matches(s) then [] else ["must match regex " + regex]))
  {
    var v := Optional();
    v := MatchesRegex(v, regex, matches);
    r := v.Validate("email", Present(s));
    var c := StringChecks.MatchesRegex(regex, matches);
    Seeds.SkipIfNullRejectsValue([c], "email", s);
    EvalOne(c, Present(s));
  }

  /** `equals(value)` and `notEquals(value)` added to checks that accept `s`:
      exactly one of the two validators accepts `s`, and the other fails with
      its own message alone. */
  lemma EqualsOrNotEquals(checks: seq<Check<string>>, field: string, value: string, s: string)
    requires !StopsWithin(checks, Present(s)) && Validation(checks, field, Present(s)) == Returned(Ok(field))
    ensures Validation(checks + [StringChecks.Equals(value)], field, Present(s)) ==
              Returned(if s == value then Ok(field) else FieldResults.Fail(field, "should be equal to " + value))
    ensures Validation(checks + [StringChecks.NotEquals(value)], field, Present(s)) ==
              Returned(if s != value then Ok(field) else FieldResults.Fail(field, "should not be equal to " + value))
  {
    OppositeChecks(checks, StringChecks.Equals(value), StringChecks.NotEquals(value), field, Present(s));
  }

  /** `isEmpty()` and `notEmpty()` added to checks that accept `s`: exactly
      one accepts `s`, and the other fails with its own message alone. */
  lemma EmptyOrNotEmpty(checks: seq<Check<string>>, field: string, s: string)
    requires !StopsWithin(checks, Present(s)) && Validation(checks, field, Present(s)) == Returned(Ok(field))
    ensures Validation(checks + [StringChecks.IsEmpty()], field, Present(s)) ==
              Returned(if s == "" then Ok(field) else FieldResults.Fail(field, "should be empty"))
    ensures Validation(checks + [StringChecks.NotEmpty()], field, Present(s)) ==
              Returned(if s != "" then Ok(field) else FieldResults.Fail(field, "should not be empty"))
  {
    OppositeChecks(checks, StringChecks.IsEmpty(), StringChecks.NotEmpty(), field, Present(s));
  }
}
