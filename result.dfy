/** The `Result` record returned by `Validator.test`, its factories, `and`,
    `concat`, and the `check` overloads that collect failing results into a
    field -> reasons map without a merge function. */
module Results {
  import Collect
  import FieldResults

  datatype Result = Result(valid: bool, field: string, reasons: seq<string>)

  /** `Result.ok(field)` */
  function Ok(field: string): (r: Result)
    ensures r.valid && r.reasons == [] && r.field == field
  {
    Result(true, field, [])
  }

  /** `Result.fail(field, message)` */
  function Fail(field: string, message: string): (r: Result)
    ensures !r.valid && r.reasons == [message] && r.field == field
  {
    Result(false, field, [message])
  }

  /** `a.and(b)`: valid only when both are, under `a`'s field, with `a`'s
      reasons followed by `b`'s. */
  function And(a: Result, b: Result): (r: Result)
    ensures r.valid <==> a.valid && b.valid
    ensures r.field == a.field
    ensures |r.reasons| == |a.reasons| + |b.reasons|
    ensures r.reasons[..|a.reasons|] == a.reasons && r.reasons[|a.reasons|..] == b.reasons
  {
    Result(a.valid && b.valid, a.field, a.reasons + b.reasons)
  }

  /** Joining with an `ok` result changes neither validity nor reasons. */
  lemma AndOk(a: Result, field: string)
    ensures And(a, Ok(field)).valid == a.valid
    ensures And(a, Ok(field)).reasons == a.reasons
    ensures And(a, Ok(field)).field == a.field
  {
    assert a.reasons + [] == a.reasons;
  }

  /** `and` groups either way. */
  lemma AndAssociative(a: Result, b: Result, c: Result)
    ensures And(And(a, b), c) == And(a, And(b, c))
  {
    assert (a.reasons + b.reasons) + c.reasons == a.reasons + (b.reasons + c.reasons);
  }

  /** `Result.concat(first, second)`: every element of `first`, then every
      element of `second`, in order. */
  function Concat(first: seq<Result>, second: seq<Result>): (rs: seq<Result>)
    ensures |rs| == |first| + |second|
    ensures forall i :: 0 <= i < |first| ==> rs[i] == first[i]
    ensures forall i :: 0 <= i < |second| ==> rs[|first| + i] == second[i]
  {
    first + second
  }

  /** A list of `Result`s seen as the `FieldResult`s with the same flags,
      fields and reasons: `check` filters and collects them exactly as
      `Reasons.of` collects field results, so the invalid fields, the shared
      fields and the collected entries are those of this view. */
  function AsFieldResults(results: seq<Result>): (rs: seq<FieldResults.FieldResult>)
    ensures |rs| == |results|
    ensures forall i :: 0 <= i < |results| ==>
              rs[i] == FieldResults.FieldResult(results[i].valid, results[i].field, results[i].reasons)
  {
    seq(|results|, i requires 0 <= i < |results| => FieldResults.FieldResult(results[i].valid, results[i].field, results[i].reasons))
  }

  function InvalidFields(results: seq<Result>): set<string> {
    FieldResults.InvalidFields(AsFieldResults(results))
  }

  predicate SharesInvalidField(results: seq<Result>) {
    FieldResults.SharesInvalidField(AsFieldResults(results))
  }

  /** `Result.check(results)`, and also `Result.check(Result...)`, whose
      varargs array is the same sequence: the invalid results, as
      (field, reasons) entries, collected without a merge function. */
  function Check(results: seq<Result>): Collect.Attempt<map<string, seq<string>>> {
    Collect.ToMap(FieldResults.FailingEntries(AsFieldResults(results)))
  }

  /** `Result.check(first, second)` */
  function CheckBoth(first: seq<Result>, second: seq<Result>): (r: Collect.Attempt<map<string, seq<string>>>)
    ensures r.DuplicateKey? <==> SharesInvalidField(first + second)
    ensures r.Done? ==> r.value.Keys == InvalidFields(first) + InvalidFields(second)
  {
    CheckSpec(first + second);
    InvalidFieldsConcat(first, second);
    Check(Concat(first, second))
  }

  lemma InvalidFieldsConcat(first: seq<Result>, second: seq<Result>)
    ensures InvalidFields(first + second) == InvalidFields(first) + InvalidFields(second)
  {
    assert AsFieldResults(first + second) == AsFieldResults(first) + AsFieldResults(second);
    FieldResults.InvalidFieldsConcat(AsFieldResults(first), AsFieldResults(second));
  }

  /** `check` throws IllegalStateException exactly when two invalid results
      share a field (there is no merge function); otherwise its keys are
      exactly the fields of the invalid results, each mapped to that result's
      reasons, and valid results contribute nothing. */
  lemma CheckSpec(results: seq<Result>)
    ensures Check(results).DuplicateKey? <==> SharesInvalidField(results)
    ensures Check(results).Done? ==>
              Check(results).value.Keys == InvalidFields(results) &&
              forall i :: 0 <= i < |results| && !results[i].valid ==>
                Check(results).value[results[i].field] == results[i].reasons
  {
    var view := AsFieldResults(results);
    var es := FieldResults.FailingEntries(view);
    FieldResults.FailingEntriesSpec(view);
    Collect.ToMapSpec(es);
    forall i | 0 <= i < |results| && !results[i].valid
      ensures exists k :: 0 <= k < |es| && es[k] == (results[i].field, results[i].reasons)
    {
      FieldResults.InvalidResultListed(view, i);
    }
  }
}
