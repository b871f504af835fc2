/** The check chain shared by FieldValidator and Validator: the check record,
    the two policy enums, and the evaluation rule as a recursive function with
    an independent characterisation (which checks run, what they report). */
module Chain {

  /** A Java reference that may be null. */
  datatype Nullable<+T> = Null | Present(value: T)

  /** What a Java `Predicate.test` call does: return true, return false, or
      throw NullPointerException because it dereferenced a null argument. */
  datatype Verdict = Pass | Fail | Crash

  /** When evaluation stops after a check. */
  datatype Terminate = Failure | Success | None

  /** Whether a failing check contributes its message. */
  datatype ErrorOn = Failure | None

  /** One entry of a validator's check list (the `Val` record). */
  datatype Check<-K> = Check(test: Nullable<K> -> Verdict, terminate: Terminate, errorOn: ErrorOn, message: string)

  /** What a loop over the checks accumulates: the failure flag and the reasons. */
  datatype Summary = Summary(hasFailures: bool, reasons: seq<string>)

  /** A Java call that returns a value or lets a NullPointerException escape. */
  datatype Outcome<R> = Returned(value: R) | NullPointerException

  /** `Objects::nonNull` */
  function NonNullTest<K>(p: Nullable<K>): Verdict {
    if p.Present? then Pass else Fail
  }

  /** `Objects::isNull` */
  function IsNullTest<K>(p: Nullable<K>): Verdict {
    if p.Null? then Pass else Fail
  }

  /** A Java predicate that calls a method on (or unboxes) its argument: it
      throws on null and otherwise answers `p`. */
  function OnValue<K>(p: K -> bool): Nullable<K> -> Verdict {
    (v: Nullable<K>) => if v.Null? then Crash else if p(v.value) then Pass else Fail
  }

  /** The message a check adds when it fails. */
  function ReportedBy<K>(c: Check<K>, param: Nullable<K>): seq<string> {
    if c.test(param) == Fail && c.errorOn == ErrorOn.Failure then [c.message] else []
  }

  /** Puts the effect of already-evaluated checks in front of the rest of a run. */
  function Prefix(failed: bool, reported: seq<string>, rest: Outcome<Summary>): Outcome<Summary> {
    match rest
    case NullPointerException => NullPointerException
    case Returned(s) => Returned(Summary(failed || s.hasFailures, reported + s.reasons))
  }

  /** The evaluation rule: one step per check, in list order. */
  function Eval<K>(checks: seq<Check<K>>, param: Nullable<K>): Outcome<Summary>
    decreases |checks|
  {
    if checks == [] then Returned(Summary(false, []))
    else
      var c := checks[0];
      match c.test(param)
      case Crash => NullPointerException
      case Fail =>
        if c.terminate == Terminate.Failure then Returned(Summary(true, ReportedBy(c, param)))
        else Prefix(true, ReportedBy(c, param), Eval(checks[1..], param))
      case Pass =>
        if c.terminate == Terminate.Success then Returned(Summary(false, []))
        else Eval(checks[1..], param)
  }

  /** Nothing evaluated yet: the prefix is neutral. */
  lemma PrefixEmpty(o: Outcome<Summary>)
    ensures Prefix(false, [], o) == o
  {
    if o.Returned? { assert [] + o.value.reasons == o.value.reasons; }
  }

  /** Two prefixes in a row are one prefix of both. */
  lemma PrefixTwice(f1: bool, r1: seq<string>, f2: bool, r2: seq<string>, o: Outcome<Summary>)
    ensures Prefix(f1, r1, Prefix(f2, r2, o)) == Prefix(f1 || f2, r1 + r2, o)
  {
    if o.Returned? { assert r1 + (r2 + o.value.reasons) == (r1 + r2) + o.value.reasons; }
  }

  // ---------------------------------------------------------------------------
  // An independent description of a run

  /** Evaluation cannot go past this check. */
  predicate Stops<K>(c: Check<K>, param: Nullable<K>) {
    match c.test(param)
    case Crash => true
    case Fail => c.terminate == Terminate.Failure
    case Pass => c.terminate == Terminate.Success
  }

  /** Some check of the list stops evaluation. */
  predicate StopsWithin<K>(checks: seq<Check<K>>, param: Nullable<K>) {
    exists i :: 0 <= i < |checks| && Stops(checks[i], param)
  }

  /** How many predicates are called: up to and including the first stopping
      check, or all of them when none stops. */
  function Evaluated<K>(checks: seq<Check<K>>, param: Nullable<K>): (n: nat)
    ensures n <= |checks|
    ensures n == 0 <==> checks == []
    ensures forall j :: 0 <= j < n - 1 ==> !Stops(checks[j], param)
    ensures n < |checks| ==> Stops(checks[n - 1], param)
    decreases |checks|
  {
    if checks == [] then 0
    else if Stops(checks[0], param) then 1
    else
      var n' := Evaluated(checks[1..], param);
      assert forall j :: 1 <= j < n' + 1 ==> checks[j] == checks[1..][j - 1];
      1 + n'
  }

  /** Messages of the failing checks marked `ErrorOn.Failure`, in list order. */
  function Reported<K>(checks: seq<Check<K>>, param: Nullable<K>): (rs: seq<string>)
    ensures |rs| <= |checks|
    decreases |checks|
  {
    if checks == [] then [] else ReportedBy(checks[0], param) + Reported(checks[1..], param)
  }

  /** Some check of the list fails. */
  predicate AnyFails<K>(checks: seq<Check<K>>, param: Nullable<K>) {
    exists i :: 0 <= i < |checks| && checks[i].test(param) == Fail
  }

  /** Some check of the list throws. */
  predicate AnyCrashes<K>(checks: seq<Check<K>>, param: Nullable<K>) {
    exists i :: 0 <= i < |checks| && checks[i].test(param) == Crash
  }

  /** The outcome of calling exactly the checks of `run`, described without
      the loop: it throws iff one of them throws; otherwise it fails iff one of
      them fails, and it reports the messages of those of them that fail and
      are marked `ErrorOn.Failure`, in order. */
  function Described<K>(run: seq<Check<K>>, param: Nullable<K>): Outcome<Summary> {
    if AnyCrashes(run, param) then NullPointerException
    else Returned(Summary(AnyFails(run, param), Reported(run, param)))
  }

  /** Evaluation calls exactly the first `Evaluated` checks, and its outcome is
      the description of that run. */
  lemma {:induction false} EvalCharacterised<K>(checks: seq<Check<K>>, param: Nullable<K>)
    ensures Eval(checks, param) == Described(checks[..Evaluated(checks, param)], param)
    decreases |checks|
  {
    if checks != [] {
      var c, tail := checks[0], checks[1..];
      var run := checks[..Evaluated(checks, param)];
      if Stops(c, param) {
        assert Evaluated(checks, param) == 1;
        assert run == [c] + [];
        DescribedCons(c, [], param);
        assert Described([], param) == Returned(Summary(false, []));
        assert ReportedBy(c, param) + [] == ReportedBy(c, param);
      } else {
        EvalCharacterised(tail, param);
        var run' := tail[..Evaluated(tail, param)];
        assert Evaluated(checks, param) == 1 + Evaluated(tail, param);
        assert run == [c] + run';
        DescribedCons(c, run', param);
      }
    }
  }

  /** How the description of a run extends by one check in front. */
  lemma DescribedCons<K>(c: Check<K>, run: seq<Check<K>>, param: Nullable<K>)
    ensures Described([c] + run, param) ==
              match c.test(param)
              case Crash => NullPointerException
              case Fail => Prefix(true, ReportedBy(c, param), Described(run, param))
              case Pass => Described(run, param)
  {
    var r := [c] + run;
    assert r[0] == c && r[1..] == run;
    forall i | 0 <= i < |run| ensures run[i] == r[i + 1] { }
    assert AnyCrashes(r, param) <==> c.test(param) == Crash || AnyCrashes(run, param);
    assert AnyFails(r, param) <==> c.test(param) == Fail || AnyFails(run, param);
    assert Reported(r, param) == ReportedBy(c, param) + Reported(run, param);
    match c.test(param)
    case Crash =>
    case Fail =>
    case Pass =>
      assert ReportedBy(c, param) == [];
      assert Reported(r, param) == Reported(run, param);
      assert AnyCrashes(r, param) == AnyCrashes(run, param);
      assert AnyFails(r, param) == AnyFails(run, param);
  }

  /** A run never yields a reason without a failure, and never more reasons
      than checks. */
  lemma ReasonsNeedFailures<K>(checks: seq<Check<K>>, param: Nullable<K>)
    ensures Eval(checks, param).Returned? ==>
              |Eval(checks, param).value.reasons| <= |checks| &&
              (!Eval(checks, param).value.hasFailures ==> Eval(checks, param).value.reasons == [])
  {
    EvalCharacterised(checks, param);
    var run := checks[..Evaluated(checks, param)];
    assert |Reported(run, param)| <= |run|;
    if !AnyFails(run, param) {
      NoFailureNothingReported(run, param);
    }
  }

  lemma {:induction false} NoFailureNothingReported<K>(checks: seq<Check<K>>, param: Nullable<K>)
    requires !AnyFails(checks, param)
    ensures Reported(checks, param) == []
    decreases |checks|
  {
    if checks != [] {
      assert checks[0].test(param) != Fail;
      assert !AnyFails(checks[1..], param) by {
        forall i | 0 <= i < |checks[1..]| ensures checks[1..][i] == checks[i + 1] { }
      }
      NoFailureNothingReported(checks[1..], param);
    }
  }

  /** Running `a + b`: when a check of `a` stops the run, `b` is never looked
      at; otherwise the run of `b` follows the run of `a`. */
  lemma {:induction false} EvalAppend<K>(a: seq<Check<K>>, b: seq<Check<K>>, param: Nullable<K>)
    ensures StopsWithin(a, param) ==> Eval(a + b, param) == Eval(a, param)
    ensures !StopsWithin(a, param) ==>
              Eval(a, param).Returned? &&
              Eval(a + b, param) == Prefix(Eval(a, param).value.hasFailures, Eval(a, param).value.reasons, Eval(b, param))
    decreases |a|
  {
    if a == [] {
      assert a + b == b;
      match Eval(b, param)
      case NullPointerException =>
      case Returned(s) => assert [] + s.reasons == s.reasons;
    } else {
      var c := a[0];
      assert (a + b)[0] == c;
      assert (a + b)[1..] == a[1..] + b;
      assert StopsWithin(a, param) <==> Stops(c, param) || StopsWithin(a[1..], param) by {
        forall i | 0 <= i < |a[1..]| ensures a[1..][i] == a[i + 1] { }
        forall i | 1 <= i < |a| ensures a[i] == a[1..][i - 1] { }
      }
      if !Stops(c, param) {
        EvalAppend(a[1..], b, param);
        if !StopsWithin(a[1..], param) {
          var s := Eval(a[1..], param).value;
          match Eval(b, param)
          case NullPointerException =>
          case Returned(t) =>
            assert ReportedBy(c, param) + (s.reasons + t.reasons) == (ReportedBy(c, param) + s.reasons) + t.reasons;
        }
      }
    }
  }

  /** After a check that stops evaluation, no later check matters: whatever
      follows it, the outcome is the same. */
  lemma LaterChecksIgnored<K>(checks: seq<Check<K>>, i: nat, rest: seq<Check<K>>, param: Nullable<K>)
    requires i < |checks| && Stops(checks[i], param)
    ensures Eval(checks[..i + 1] + rest, param) == Eval(checks, param)
  {
    var head := checks[..i + 1];
    assert head[i] == checks[i];
    EvalAppend(head, rest, param);
    EvalAppend(head, checks[i + 1..], param);
    assert head + checks[i + 1..] == checks;
  }

  /** A chain of `Terminate.None` checks that do not throw runs to the end and
      reports one message per failing reporting check, in order. */
  lemma ContinueRunsEveryCheck<K>(checks: seq<Check<K>>, param: Nullable<K>)
    requires forall i :: 0 <= i < |checks| ==> checks[i].terminate == Terminate.None && checks[i].test(param) != Crash
    ensures Evaluated(checks, param) == |checks|
    ensures Eval(checks, param) == Returned(Summary(AnyFails(checks, param), Reported(checks, param)))
  {
    var n := Evaluated(checks, param);
    if n < |checks| {
      assert false;
    }
    EvalCharacterised(checks, param);
    assert checks[..n] == checks;
  }

  /** A single check that neither stops nor throws: the run fails iff it
      fails, and reports its message iff it fails and is marked to. */
  lemma EvalOne<K>(c: Check<K>, param: Nullable<K>)
    requires c.terminate == Terminate.None && c.test(param) != Crash
    ensures Eval([c], param) == Returned(Summary(c.test(param) == Fail, ReportedBy(c, param)))
  {
    var none: seq<Check<K>> := [];
    assert [c][0] == c && [c][1..] == none;
    assert Eval(none, param) == Returned(Summary(false, []));
    if c.test(param) == Fail {
      assert Eval([c], param) == Returned(Summary(true, ReportedBy(c, param) + []));
      assert ReportedBy(c, param) + [] == ReportedBy(c, param);
    } else {
      assert ReportedBy(c, param) == [];
    }
  }

  /** Two checks that never stop and do not throw: both are called, and the
      run fails iff either fails, reporting the first's message before the
      second's. */
  lemma EvalTwo<K>(c1: Check<K>, c2: Check<K>, param: Nullable<K>)
    requires c1.terminate == Terminate.None && c1.test(param) != Crash
    requires c2.terminate == Terminate.None && c2.test(param) != Crash
    ensures Eval([c1, c2], param) ==
              Returned(Summary(c1.test(param) == Fail || c2.test(param) == Fail, ReportedBy(c1, param) + ReportedBy(c2, param)))
  {
    assert [c1, c2][0] == c1 && [c1, c2][1..] == [c2];
    EvalOne(c2, param);
    var tail := Eval([c2], param);
    if c1.test(param) == Pass {
      assert ReportedBy(c1, param) == [];
      assert [] + ReportedBy(c2, param) == ReportedBy(c2, param);
      assert Eval([c1, c2], param) == tail;
    } else {
      assert Eval([c1, c2], param) == Prefix(true, ReportedBy(c1, param), tail);
    }
  }
}
