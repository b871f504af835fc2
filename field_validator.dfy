/** `FieldValidator<K>`: a mutable list of checks, `add` that appends in place
    and returns the receiver, and the `validate` loop that returns a
    `FieldResult`. */
module FieldValidators {
  import opened Chain
  import opened FieldResults

  /** What `validate` returns once the loop is over: a failure with the
      collected reasons if any evaluated check failed, `ok` otherwise. */
  function AsFieldResult(field: string, o: Outcome<Summary>): Outcome<FieldResult> {
    match o
    case NullPointerException => NullPointerException
    case Returned(s) => Returned(if s.hasFailures then FailWith(field, s.reasons) else Ok(field))
  }

  /** The specification of `validate(field, param)`. Exactly the first
      `Evaluated` checks are called; the call throws iff one of them throws;
      otherwise the result carries `field`, is invalid iff one of them fails
      (reported or not), and lists the messages of the failing reporting ones
      in order. */
  function Validation<K>(checks: seq<Check<K>>, field: string, param: Nullable<K>): (r: Outcome<FieldResult>)
    ensures var run := checks[..Evaluated(checks, param)];
            r == if AnyCrashes(run, param) then NullPointerException
                 else Returned(FieldResult(!AnyFails(run, param), field, Reported(run, param)))
    ensures r.Returned? ==> |r.value.reasons| <= |checks|
  {
    EvalCharacterised(checks, param);
    ReasonsNeedFailures(checks, param);
    AsFieldResult(field, Eval(checks, param))
  }

  class FieldValidator<K> {
    var vals: seq<Check<K>>

    /** The one-check constructor: an empty list, then `add`. */
    constructor (test: Nullable<K> -> Verdict, terminate: Terminate, errorOn: ErrorOn, message: string)
      ensures vals == [Check(test, terminate, errorOn, message)]
    {
      vals := [];
      new;
      var self := Add(test, terminate, errorOn, message);
    }

    /** The copy constructor `FieldValidator(other, ...)` the string, boolean
        and list field helpers call: `other`'s checks followed by one more,
        leaving `other` as it was. */
    constructor Extend(other: FieldValidator<K>, test: Nullable<K> -> Verdict, terminate: Terminate, errorOn: ErrorOn, message: string)
      ensures vals == other.vals + [Check(test, terminate, errorOn, message)]
    {
      vals := other.vals;
      new;
      var self := Add(test, terminate, errorOn, message);
    }

    /** `add`: appends one check in place and returns the receiver. */
    method Add(test: Nullable<K> -> Verdict, terminate: Terminate, errorOn: ErrorOn, message: string)
      returns (self: FieldValidator<K>)
      modifies this
      ensures self == this
      ensures vals == old(vals) + [Check(test, terminate, errorOn, message)]
    {
      vals := vals + [Check(test, terminate, errorOn, message)];
      self := this;
    }

    /** `validate(field, param)` */
    method Validate(field: string, param: Nullable<K>) returns (r: Outcome<FieldResult>)
      ensures r == Validation(vals, field, param)
    {
      var reasons: seq<string> := [];
      var hasFailures := false;
      var i := 0;
      assert vals[0..] == vals;
      PrefixEmpty(Eval(vals, param));
      while i < |vals|
        invariant 0 <= i <= |vals|
        invariant Eval(vals, param) == Prefix(hasFailures, reasons, Eval(vals[i..], param))
      {
        var val := vals[i];
        assert vals[i..][0] == val && vals[i..][1..] == vals[i + 1..];
        var testPassed := val.test(param);
        if testPassed == Crash {
          return NullPointerException;
        }
        if testPassed == Fail {
          ghost var reasons0, failures0 := reasons, hasFailures;
          PrefixTwice(hasFailures, reasons, true, ReportedBy(val, param), Eval(vals[i + 1..], param));
          hasFailures := true;
          if val.errorOn == ErrorOn.Failure {
            reasons := reasons + [val.message];
          } else {
            assert reasons + [] == reasons;
          }
          assert reasons == reasons0 + ReportedBy(val, param);
          if val.terminate == Terminate.Failure {
            assert Eval(vals[i..], param) == Returned(Summary(true, ReportedBy(val, param)));
            assert Eval(vals, param) == Prefix(failures0, reasons0, Returned(Summary(true, ReportedBy(val, param))));
            assert Eval(vals, param) == Returned(Summary(hasFailures, reasons));
            break;
          }
        } else {
          if val.terminate == Terminate.Success {
            assert Eval(vals, param) == Returned(Summary(hasFailures, reasons));
            break;
          }
        }
        i := i + 1;
      }
      assert reasons + [] == reasons;
      if hasFailures {
        r := Returned(FailWith(field, reasons));
      } else {
        r := Returned(Ok(field));
      }
    }
  }

  /** A valid result never carries a reason, and the field is passed through. */
  lemma ValidMeansNoReasons<K>(checks: seq<Check<K>>, field: string, param: Nullable<K>)
    ensures Validation(checks, field, param).Returned? ==>
              Validation(checks, field, param).value.field == field &&
              (Validation(checks, field, param).value.valid ==> Validation(checks, field, param).value.reasons == [])
  {
    var run := checks[..Evaluated(checks, param)];
    if !AnyFails(run, param) {
      NoFailureNothingReported(run, param);
    }
  }

  /** A failing check marked `ErrorOn.None` makes the result invalid without
      a reason: this is what the `optional()` seeds rely on. */
  lemma SilentFailure<K>(c: Check<K>, rest: seq<Check<K>>, field: string, param: Nullable<K>)
    requires c.test(param) == Fail && c.errorOn == ErrorOn.None && c.terminate == Terminate.Failure
    ensures Validation([c] + rest, field, param) == Returned(FailWith(field, []))
  {
    assert ([c] + rest)[0] == c;
  }

  /** After a check that stops the run, the checks that follow are never
      called: replacing them changes nothing. */
  lemma StopIgnoresTail<K>(checks: seq<Check<K>>, i: nat, rest: seq<Check<K>>, field: string, param: Nullable<K>)
    requires i < |checks| && Stops(checks[i], param)
    ensures Validation(checks[..i + 1] + rest, field, param) == Validation(checks, field, param)
  {
    LaterChecksIgnored(checks, i, rest, param);
  }

  /** Running `a + b` where no check of `a` stops: the result is invalid iff
      either part has a failure, and its reasons are `a`'s followed by `b`'s. */
  lemma ValidationAppend<K>(a: seq<Check<K>>, b: seq<Check<K>>, field: string, param: Nullable<K>)
    requires !StopsWithin(a, param)
    requires Validation(a, field, param).Returned? && Validation(b, field, param).Returned?
    ensures Validation(a + b, field, param) ==
              Returned(FieldResult(
                Validation(a, field, param).value.valid && Validation(b, field, param).value.valid,
                field,
                Validation(a, field, param).value.reasons + Validation(b, field, param).value.reasons))
  {
    EvalAppend(a, b, param);
    ReasonsNeedFailures(a, param);
    ReasonsNeedFailures(b, param);
    var sa, sb := Eval(a, param).value, Eval(b, param).value;
    if !sa.hasFailures { assert [] + sb.reasons == sb.reasons; }
    if !sb.hasFailures { assert sa.reasons + [] == sa.reasons; }
  }

  /** A validator holding one non-stopping check, reporting on failure,
      decides alone: valid exactly when the check passes, and the check's
      message is then the only possible reason. */
  lemma SingleCheck<K>(c: Check<K>, field: string, param: Nullable<K>)
    requires c.terminate == Terminate.None && c.errorOn == ErrorOn.Failure && c.test(param) != Crash
    ensures Validation([c], field, param) ==
              Returned(if c.test(param) == Pass then Ok(field) else FieldResults.Fail(field, c.message))
  {
    EvalOne(c, param);
  }

  /** Two non-stopping reporting checks that decide a value oppositely, each
      appended to checks that accept it: exactly one of the two validators
      accepts the value, and the other fails with its own message alone. */
  lemma OppositeChecks<K>(checks: seq<Check<K>>, c1: Check<K>, c2: Check<K>, field: string, param: Nullable<K>)
    requires !StopsWithin(checks, param) && Validation(checks, field, param) == Returned(Ok(field))
    requires c1.terminate == Terminate.None && c1.errorOn == ErrorOn.Failure && c1.test(param) != Crash
    requires c2.terminate == Terminate.None && c2.errorOn == ErrorOn.Failure && c2.test(param) != Crash
    requires c1.test(param) == Pass <==> c2.test(param) == Fail
    ensures Validation(checks + [c1], field, param) ==
              Returned(if c1.test(param) == Pass then Ok(field) else FieldResults.Fail(field, c1.message))
    ensures Validation(checks + [c2], field, param) ==
              Returned(if c2.test(param) == Pass then Ok(field) else FieldResults.Fail(field, c2.message))
    ensures Validation(checks + [c1], field, param).value.valid != Validation(checks + [c2], field, param).value.valid
  {
    AfterAccepting(checks, c1, field, param);
    SingleCheck(c1, field, param);
    AfterAccepting(checks, c2, field, param);
    SingleCheck(c2, field, param);
  }

  /** One non-stopping reporting check after checks that accept the value
      decides alone, as if it were the only check. */
  lemma AfterAccepting<K>(checks: seq<Check<K>>, c: Check<K>, field: string, param: Nullable<K>)
    requires !StopsWithin(checks, param) && Validation(checks, field, param) == Returned(Ok(field))
    requires c.terminate == Terminate.None && c.errorOn == ErrorOn.Failure && c.test(param) != Crash
    ensures Validation(checks + [c], field, param) == Validation([c], field, param)
  {
    SingleCheck(c, field, param);
    ValidationAppend(checks, [c], field, param);
    var single := Validation([c], field, param).value;
    assert Validation(checks, field, param).value.reasons == [];
    assert [] + single.reasons == single.reasons;
  }
}
