/** `ValidationResult`: the aggregate of many field results, keyed by field,
    where two invalid results for one field have their reasons concatenated. */
module ValidationResults {
  import Collect
  import Messages
  import opened FieldResults

  datatype ValidationResult = ValidationResult(valid: bool, reasons: map<string, seq<string>>) {

    /** `isValid()` returns the stored flag. */
    function IsValid(): bool {
      valid
    }

    /** `getMessage()`; `order` is the map's iteration order. A single entry
        renders as its line between braces. It looks only at
        the map, not at the flag. */
    function GetMessage(order: seq<string>): (s: string)
      requires multiset(order) == multiset(reasons.Keys)
      ensures s == Messages.NoFailures <==> |reasons| == 0
      ensures |order| == 1 ==>
                order[0] in reasons && s == "{\n" + Messages.EntryLine(order[0], reasons[order[0]]) + "\n}"
    {
      Messages.Render(reasons, order)
    }
  }

  /** `ValidationResult.of(map)`: valid exactly when the map is empty. */
  function Of(reasons: map<string, seq<string>>): (r: ValidationResult)
    ensures r.reasons == reasons
    ensures r.IsValid() <==> reasons == map[]
  {
    assert |reasons| == 0 <==> reasons == map[];
    ValidationResult(|reasons| == 0, reasons)
  }

  /** `ValidationResult.of(list)`: the keys are exactly the fields of the
      invalid results; each holds the reasons of every invalid result for that
      field, earlier results first; the aggregate is valid exactly when every
      result is. */
  function OfList(results: seq<FieldResult>): (r: ValidationResult)
    ensures r.reasons.Keys == InvalidFields(results)
    ensures forall f :: f in r.reasons ==> r.reasons[f] == ReasonsFor(results, f)
    ensures r.IsValid() <==> forall i :: 0 <= i < |results| ==> results[i].valid
  {
    var es := FailingEntries(results);
    FailingEntriesSpec(results);
    Collect.ToMapMergingSpec(es);
    var r := Of(Collect.ToMapMerging(es));
    assert r.IsValid() <==> forall i :: 0 <= i < |results| ==> results[i].valid by {
      if exists i :: 0 <= i < |results| && !results[i].valid {
        var i :| 0 <= i < |results| && !results[i].valid;
        assert results[i].field in InvalidFields(results);
      }
    }
    r
  }

  /** `ValidationResult.of(fieldResult)`, which is `of(List.of(fieldResult))`:
      valid exactly when the result is, and otherwise the one entry for its
      field, kept even when its reasons are empty. */
  function OfResult(result: FieldResult): (r: ValidationResult)
    ensures r.IsValid() == result.valid
    ensures result.valid ==> r.reasons == map[]
    ensures !result.valid ==> r.reasons == map[result.field := result.reasons]
  {
    var r := OfList([result]);
    assert [result][..0] == [];
    assert InvalidFields([result]) == if result.valid then {} else {result.field};
    assert !result.valid ==> ReasonsFor([result], result.field) == result.reasons;
    r
  }

  /** Two failures for one field are concatenated, not overwritten. */
  lemma SameFieldConcatenates(field: string, first: seq<string>, second: seq<string>)
    ensures OfList([FailWith(field, first), FailWith(field, second)]).reasons == map[field := first + second]
    ensures !OfList([FailWith(field, first), FailWith(field, second)]).IsValid()
  {
    var rs := [FailWith(field, first), FailWith(field, second)];
    assert rs[..1] == [rs[0]] && [rs[0]][..0] == [];
    assert InvalidFields(rs) == {field};
    assert ReasonsFor([rs[0]], field) == [] + first;
    assert ReasonsFor(rs, field) == ReasonsFor([rs[0]], field) + second;
    var m := OfList(rs).reasons;
    assert m.Keys == {field} && m[field] == first + second;
  }

  /** A valid result and an invalid one: only the invalid field is listed. */
  lemma ValidResultsContributeNothing(a: string, b: string, reason: string)
    requires a != b
    ensures OfList([Ok(a), Fail(b, reason)]).reasons == map[b := [reason]]
  {
    var rs := [Ok(a), Fail(b, reason)];
    assert rs[..1] == [rs[0]] && [rs[0]][..0] == [];
    assert rs[0].valid && !rs[1].valid && rs[1].field == b;
    assert InvalidFields(rs) == {b} by {
      forall f | f in InvalidFields(rs) ensures f == b {
        var i :| 0 <= i < |rs| && !rs[i].valid && rs[i].field == f;
      }
    }
    assert ReasonsFor([rs[0]], b) == [] + [];
    assert ReasonsFor(rs, b) == ReasonsFor([rs[0]], b) + [reason];
    var m := OfList(rs).reasons;
    assert m.Keys == {b} && m[b] == [reason];
  }

  /** An invalid result with no reasons still adds its field, so the
      aggregate is invalid. */
  lemma SilentFailureStillInvalid(results: seq<FieldResult>, i: nat)
    requires i < |results| && !results[i].valid && results[i].reasons == []
    ensures results[i].field in OfList(results).reasons
    ensures !OfList(results).IsValid()
  {
  }
}
