/** `Reasons`: a field -> reasons map whose validity is the map's emptiness.
    Its list factory collects without a merge function, so two invalid
    results for one field make it throw. */
module ReasonsRecord {
  import Collect
  import Messages
  import ValidationResults
  import opened FieldResults

  datatype Reasons = Reasons(reasons: map<string, seq<string>>) {

    /** `isValid()`: valid exactly when no field is listed. */
    function IsValid(): (b: bool)
      ensures b <==> reasons == map[]
    {
      assert |reasons| == 0 <==> reasons == map[];
      |reasons| == 0
    }

    /** `getMessage()`; `order` is the map's iteration order. A single entry
        renders as its line between braces. */
    function GetMessage(order: seq<string>): (s: string)
      requires multiset(order) == multiset(reasons.Keys)
      ensures s == Messages.NoFailures <==> IsValid()
      ensures |order| == 1 ==>
                order[0] in reasons && s == "{\n" + Messages.EntryLine(order[0], reasons[order[0]]) + "\n}"
    {
      Messages.Render(reasons, order)
    }
  }

  /** `Reasons.of(list)`: throws IllegalStateException (`DuplicateKey`) exactly
      when two invalid results share a field; otherwise lists exactly the
      invalid fields, each with that result's reasons. */
  function OfList(results: seq<FieldResult>): (r: Collect.Attempt<Reasons>)
    ensures r.DuplicateKey? <==> SharesInvalidField(results)
    ensures r.Done? ==>
              r.value.reasons.Keys == InvalidFields(results) &&
              forall i :: 0 <= i < |results| && !results[i].valid ==>
                r.value.reasons[results[i].field] == results[i].reasons
  {
    var es := FailingEntries(results);
    FailingEntriesSpec(results);
    Collect.ToMapSpec(es);
    assert forall i :: 0 <= i < |results| && !results[i].valid ==>
             exists k :: 0 <= k < |es| && es[k] == (results[i].field, results[i].reasons) by {
      forall i | 0 <= i < |results| && !results[i].valid
        ensures exists k :: 0 <= k < |es| && es[k] == (results[i].field, results[i].reasons)
      {
        InvalidResultListed(results, i);
      }
    }
    match Collect.ToMap(es)
    case DuplicateKey(k) => Collect.DuplicateKey(k)
    case Done(m) => Collect.Done(Reasons(m))
  }

  /** `Reasons.of(fieldResult)`, which is `of(List.of(fieldResult))`: a single
      result never throws, and is listed exactly when it is invalid. */
  function OfResult(result: FieldResult): (r: Reasons)
    ensures r.IsValid() == result.valid
    ensures !result.valid ==> r.reasons == map[result.field := result.reasons]
  {
    var a := OfList([result]);
    assert !SharesInvalidField([result]);
    assert InvalidFields([result]) == if result.valid then {} else {result.field};
    a.value
  }

  /** Whenever `Reasons.of(list)` completes, it lists the same map as
      `ValidationResult.of(list)`, and the two agree on validity. */
  lemma AgreesWithValidationResult(results: seq<FieldResult>)
    ensures OfList(results).Done? ==>
              OfList(results).value.reasons == ValidationResults.OfList(results).reasons &&
              OfList(results).value.IsValid() == ValidationResults.OfList(results).IsValid()
  {
    Collect.ToMapAgreesWithMerging(FailingEntries(results));
  }

  /** Where `ValidationResult.of(list)` concatenates two failures of one
      field, `Reasons.of(list)` throws on the repeated key. */
  lemma SameFieldThrows(field: string, first: seq<string>, second: seq<string>)
    ensures OfList([FailWith(field, first), FailWith(field, second)]) == Collect.DuplicateKey(field)
  {
    var rs := [FailWith(field, first), FailWith(field, second)];
    assert SharesInvalidField(rs) by {
      assert 0 <= 0 < 1 < |rs| && !rs[0].valid && !rs[1].valid && rs[0].field == rs[1].field;
    }
    assert rs[..1] == [rs[0]] && [rs[0]][..0] == [];
    assert FailingEntries([rs[0]]) == [] + [(field, first)];
    var es := FailingEntries(rs);
    assert es == FailingEntries([rs[0]]) + [(field, second)];
    assert es[..1] == [(field, first)] && [(field, first)][..0] == [];
    assert Collect.ToMap([(field, first)]) == Collect.Done(map[field := first]);
    assert Collect.ToMap(es) == Collect.DuplicateKey(field);
  }
}
