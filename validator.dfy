/** `Validator<K>`: the same mutable list of checks and in-place `add` as
    `FieldValidator`, with a `test` loop that returns a `Result`. */
module Validators {
  import opened Chain
  import opened Results
  import FieldValidators

  /** What `test` returns once the loop is over: `new Result(false, field,
      reasons)` if any evaluated check failed, `Result.ok(field)` otherwise. */
  function AsResult(field: string, o: Outcome<Summary>): Outcome<Result> {
    match o
    case NullPointerException => NullPointerException
    case Returned(s) => Returned(if s.hasFailures then Result(false, field, s.reasons) else Ok(field))
  }

  /** The specification of `test(field, param)`. Exactly the first
      `Evaluated` checks are called; the call throws iff one of them throws;
      otherwise the result carries `field`, is invalid iff one of them fails
      (reported or not), and lists the messages of the failing reporting ones
      in order. */
  function Testing<K>(checks: seq<Check<K>>, field: string, param: Nullable<K>): (r: Outcome<Result>)
    ensures var run := checks[..Evaluated(checks, param)];
            r == if AnyCrashes(run, param) then NullPointerException
                 else Returned(Result(!AnyFails(run, param), field, Reported(run, param)))
    ensures r.Returned? ==> |r.value.reasons| <= |checks|
  {
    EvalCharacterised(checks, param);
    ReasonsNeedFailures(checks, param);
    AsResult(field, Eval(checks, param))
  }

  class Validator<K> {
    var vals: seq<Check<K>>

    /** The one-check constructor: an empty list, then `add`. */
    constructor (test: Nullable<K> -> Verdict, terminate: Terminate, errorOn: ErrorOn, message: string)
      ensures vals == [Check(test, terminate, errorOn, message)]
    {
      vals := [];
      new;
      var self := Add(test, terminate, errorOn, message);
    }

    /** `add`: appends one check in place and returns the receiver. */
    method Add(test: Nullable<K> -> Verdict, terminate: Terminate, errorOn: ErrorOn, message: string)
      returns (self: Validator<K>)
      modifies this
      ensures self == this
      ensures vals == old(vals) + [Check(test, terminate, errorOn, message)]
    {
      vals := vals + [Check(test, terminate, errorOn, message)];
      self := this;
    }

    /** `test(field, param)` */
    method Test(field: string, param: Nullable<K>) returns (r: Outcome<Result>)
      ensures r == Testing(vals, field, param)
    {
      var reasons: seq<string> := [];
      var hasFailures := false;
      var i := 0;
      assert vals[0..] == vals;
      PrefixEmpty(Eval(vals, param));
      while i < |vals|
        invariant 0 <= i <= |vals|
        invariant Eval(vals, param) == Prefix(hasFailures, reasons, Eval(vals[i..], param))
      {
        var val := vals[i];
        assert vals[i..][0] == val && vals[i..][1..] == vals[i + 1..];
        var testPassed := val.test(param);
        if testPassed == Crash {
          return NullPointerException;
        }
        if testPassed == Fail {
          ghost var reasons0, failures0 := reasons, hasFailures;
          PrefixTwice(hasFailures, reasons, true, ReportedBy(val, param), Eval(vals[i + 1..], param));
          hasFailures := true;
          if val.errorOn == ErrorOn.Failure {
            reasons := reasons + [val.message];
          } else {
            assert reasons + [] == reasons;
          }
          assert reasons == reasons0 + ReportedBy(val, param);
          if val.terminate == Terminate.Failure {
            assert Eval(vals[i..], param) == Returned(Summary(true, ReportedBy(val, param)));
            assert Eval(vals, param) == Prefix(failures0, reasons0, Returned(Summary(true, ReportedBy(val, param))));
            assert Eval(vals, param) == Returned(Summary(hasFailures, reasons));
            break;
          }
        } else {
          if val.terminate == Terminate.Success {
            assert Eval(vals, param) == Returned(Summary(hasFailures, reasons));
            break;
          }
        }
        i := i + 1;
      }
      assert reasons + [] == reasons;
      if hasFailures {
        r := Returned(Result(false, field, reasons));
      } else {
        r := Returned(Ok(field));
      }
    }
  }

  /** `test` and `validate` agree: on the same checks and input, both throw
      or both return the same validity, field and reasons. */
  lemma TestAgreesWithValidate<K>(checks: seq<Check<K>>, field: string, param: Nullable<K>)
    ensures Testing(checks, field, param).NullPointerException? <==>
              FieldValidators.Validation(checks, field, param).NullPointerException?
    ensures Testing(checks, field, param).Returned? ==>
              var r, fr := Testing(checks, field, param).value, FieldValidators.Validation(checks, field, param).value;
              r.valid == fr.valid && r.field == fr.field && r.reasons == fr.reasons
  {
  }

  /** A failing check marked `ErrorOn.None` gives `Result(false, field, [])`. */
  lemma SilentFailure<K>(c: Check<K>, rest: seq<Check<K>>, field: string, param: Nullable<K>)
    requires c.test(param) == Fail && c.errorOn == ErrorOn.None && c.terminate == Terminate.Failure
    ensures Testing([c] + rest, field, param) == Returned(Result(false, field, []))
  {
    assert ([c] + rest)[0] == c;
  }

  /** With no failing check among those called, `test` is `Result.ok(field)`. */
  lemma NoFailureIsOk<K>(checks: seq<Check<K>>, field: string, param: Nullable<K>)
    requires Testing(checks, field, param).Returned? && Testing(checks, field, param).value.valid
    ensures Testing(checks, field, param) == Returned(Ok(field))
  {
    NoFailureNothingReported(checks[..Evaluated(checks, param)], param);
  }

  /** A validator holding one non-stopping check, reporting on failure,
      decides alone: `Result.ok` exactly when the check passes, and the
      check's message is then the only reason. */
  lemma SingleCheck<K>(c: Check<K>, field: string, param: Nullable<K>)
    requires c.terminate == Terminate.None && c.errorOn == ErrorOn.Failure && c.test(param) != Crash
    ensures Testing([c], field, param) ==
              Returned(if c.test(param) == Pass then Ok(field) else Results.Fail(field, c.message))
  {
    EvalOne(c, param);
  }

  /** The `test` form of `FieldValidators.OppositeChecks`: after checks that
      accept the value, exactly one of two opposite checks accepts it, and the
      other gives `Result.fail` with its own message. */
  lemma OppositeChecks<K>(checks: seq<Check<K>>, c1: Check<K>, c2: Check<K>, field: string, param: Nullable<K>)
    requires !StopsWithin(checks, param) && Testing(checks, field, param) == Returned(Ok(field))
    requires c1.terminate == Terminate.None && c1.errorOn == ErrorOn.Failure && c1.test(param) != Crash
    requires c2.terminate == Terminate.None && c2.errorOn == ErrorOn.Failure && c2.test(param) != Crash
    requires c1.test(param) == Pass <==> c2.test(param) == Fail
    ensures Testing(checks + [c1], field, param) ==
              Returned(if c1.test(param) == Pass then Ok(field) else Results.Fail(field, c1.message))
    ensures Testing(checks + [c2], field, param) ==
              Returned(if c2.test(param) == Pass then Ok(field) else Results.Fail(field, c2.message))
    ensures Testing(checks + [c1], field, param).value.valid != Testing(checks + [c2], field, param).value.valid
  {
    TestAgreesWithValidate(checks, field, param);
    FieldValidators.OppositeChecks(checks, c1, c2, field, param);
    TestAgreesWithValidate(checks + [c1], field, param);
    TestAgreesWithValidate(checks + [c2], field, param);
  }
}
