/** `StringValidator`: static factories that seed a `Validator` over strings,
    and builders that append to the receiver in place and return it. */
module StringValidators {
  import opened Chain
  import opened Results
  import opened Validators
  import Seeds
  import StringChecks
  import Messages

  /** `new StringValidator(predicate, terminate, errorOn, message)` */
  method Start(c: Check<string>) returns (r: Validator<string>)
    ensures fresh(r) && r.vals == [c]
  {
    r := new Validator(c.test, c.terminate, c.errorOn, c.message);
  }

  /** `(StringValidator) this.add(predicate, terminate, errorOn, message)` */
  method Append(v: Validator<string>, c: Check<string>) returns (r: Validator<string>)
    modifies v
    ensures r == v && v.vals == old(v.vals) + [c]
  {
    r := v.Add(c.test, c.terminate, c.errorOn, c.message);
  }

  method NonNull() returns (r: Validator<string>)
    ensures fresh(r) && r.vals == [Seeds.NonNull("should not be null")]
  {
    r := Start(Seeds.NonNull("should not be null"));
  }

  method IsNull() returns (r: Validator<string>)
    ensures fresh(r) && r.vals == [Seeds.IsNull("should be null")]
  {
    r := Start(Seeds.IsNull("should be null"));
  }

  method Optional() returns (r: Validator<string>)
    ensures fresh(r) && r.vals == [Seeds.AlwaysPass()]
  {
    r := Start(Seeds.AlwaysPass());
  }

  method MinSize(v: Validator<string>, size: int) returns (r: Validator<string>)
    modifies v
    ensures r == v && v.vals == old(v.vals) + [StringChecks.MinLength(size)]
  {
    r := Append(v, StringChecks.MinLength(size));
  }

  method MaxSize(v: Validator<string>, size: int) returns (r: Validator<string>)
    modifies v
    ensures r == v && v.vals == old(v.vals) + [StringChecks.MaxLength(size)]
  {
    r := Append(v, StringChecks.MaxLength(size));
  }

  /** `minSize(minSize).maxSize(maxSize)`: the lower bound first. */
  method Between(v: Validator<string>, minSize: int, maxSize: int) returns (r: Validator<string>)
    modifies v
    ensures r == v && v.vals == old(v.vals) + [StringChecks.MinLength(minSize), StringChecks.MaxLength(maxSize)]
  {
    var lower := MinSize(v, minSize);
    r := MaxSize(lower, maxSize);
  }

  method Contains(v: Validator<string>, sub: string) returns (r: Validator<string>)
    modifies v
    ensures r == v && v.vals == old(v.vals) + [StringChecks.Contains(sub)]
  {
    r := Append(v, StringChecks.Contains(sub));
  }

  method Equals(v: Validator<string>, value: string) returns (r: Validator<string>)
    modifies v
    ensures r == v && v.vals == old(v.vals) + [StringChecks.Equals(value)]
  {
    r := Append(v, StringChecks.Equals(value));
  }

  method NotEquals(v: Validator<string>, value: string) returns (r: Validator<string>)
    modifies v
    ensures r == v && v.vals == old(v.vals) + [StringChecks.NotEquals(value)]
  {
    r := Append(v, StringChecks.NotEquals(value));
  }

  method IsEmpty(v: Validator<string>) returns (r: Validator<string>)
    modifies v
    ensures r == v && v.vals == old(v.vals) + [StringChecks.IsEmpty()]
  {
    r := Append(v, StringChecks.IsEmpty());
  }

  method NotEmpty(v: Validator<string>) returns (r: Validator<string>)
    modifies v
    ensures r == v && v.vals == old(v.vals) + [StringChecks.NotEmpty()]
  {
    r := Append(v, StringChecks.NotEmpty());
  }

  method Regex(v: Validator<string>, regex: string, matches: string -> bool) returns (r: Validator<string>)
    modifies v
    ensures r == v && v.vals == old(v.vals) + [StringChecks.MatchesRegex(regex, matches)]
  {
    r := Append(v, StringChecks.MatchesRegex(regex, matches));
  }

  /** Two builder calls on one seed share its list: `a = seed.minSize(5)` and
      `b = seed.maxSize(3)` are the same object, and testing `a` also runs the
      check added through `b`. */
  method SharedSeed() returns (same: bool, r: Outcome<Result>)
    ensures same
    ensures r == Returned(Result(false, "name", ["should have at least 5 characters", "should not exceed 3 characters"]))
  {
    var seed := NonNull();
    var a := MinSize(seed, 5);
    var b := MaxSize(seed, 3);
    same := a == b;
    r := a.Test("name", Present("abcd"));
    assert a.vals == [Seeds.NonNull("should not be null"), StringChecks.MinLength(5), StringChecks.MaxLength(3)];
    SharedSeedOutcome();
  }

  lemma SharedSeedOutcome()
    ensures Testing([Seeds.NonNull("should not be null"), StringChecks.MinLength(5), StringChecks.MaxLength(3)], "name", Present("abcd"))
            == Returned(Result(false, "name", ["should have at least 5 characters", "should not exceed 3 characters"]))
  {
    var lo, hi := StringChecks.MinLength(5), StringChecks.MaxLength(3);
    assert [Seeds.NonNull("should not be null")] + [lo, hi] == [Seeds.NonNull("should not be null"), lo, hi];
    Seeds.NonNullAdmitsValue("should not be null", [lo, hi], "name", "abcd");
    assert |"abcd"| == 4;
    assert lo.test(Present("abcd")) == Fail && hi.test(Present("abcd")) == Fail;
    EvalTwo(lo, hi, Present("abcd"));
    assert Testing([lo, hi], "name", Present("abcd")) == Returned(Result(false, "name", [lo.message] + [hi.message]));
    assert lo.message == "should have at least 5 characters" by {
      assert Messages.NatToString(5) == "5";
    }
    assert hi.message == "should not exceed 3 characters" by {
      assert Messages.NatToString(3) == "3";
    }
    assert [lo.message] + [hi.message] == ["should have at least 5 characters", "should not exceed 3 characters"];
  }

  /** `optional().minSize(5)` on null: `optional()` does not stop the run, so
      the length check dereferences null and `test` throws. */
  method OptionalThenMinSizeOnNull() returns (r: Outcome<Result>)
    ensures r == NullPointerException
  {
    var v := Optional();
    v := MinSize(v, 5);
    r := v.Test("name", Null);
    Seeds.AlwaysPassIsNeutral([StringChecks.MinLength(5)], "name", Null);
    assert [StringChecks.MinLength(5)][0] == StringChecks.MinLength(5);
  }

  /** `optional().regex(regex)` on null: the regex check admits null, so the
      result is `Result.ok`. */
  method OptionalRegexOnNull(regex: string, matches: string -> bool) returns (r: Outcome<Result>)
    ensures r == Returned(Ok("email"))
  {
    var v := Optional();
    v := Regex(v, regex, matches);
    r := v.Test("email", Null);
    var c := StringChecks.MatchesRegex(regex, matches);
    Seeds.AlwaysPassIsNeutral([c], "email", Null);
    EvalOne(c, Null);
  }
}
