/** The `FieldResult` record returned by `FieldValidator.validate`, its
    factories, and the view of a list of them that the aggregators collect. */
module FieldResults {
  import Collect

  datatype FieldResult = FieldResult(valid: bool, field: string, reasons: seq<string>)

  /** `FieldResult.ok(field)` */
  function Ok(field: string): (r: FieldResult)
    ensures r.valid && r.reasons == [] && r.field == field
  {
    FieldResult(true, field, [])
  }

  /** `FieldResult.fail(field, message)` */
  function Fail(field: string, message: string): (r: FieldResult)
    ensures !r.valid && r.reasons == [message] && r.field == field
  {
    FieldResult(false, field, [message])
  }

  /** `FieldResult.fail(field, reasons)`: the list is kept as given, even empty. */
  function FailWith(field: string, reasons: seq<string>): (r: FieldResult)
    ensures !r.valid && r.reasons == reasons && r.field == field
  {
    FieldResult(false, field, reasons)
  }

  /** `results.stream().filter(r -> !r.valid())`, seen as (field, reasons) entries. */
  function FailingEntries(results: seq<FieldResult>): seq<Collect.Entry>
    decreases |results|
  {
    if results == [] then []
    else
      var r := results[|results| - 1];
      FailingEntries(results[..|results| - 1]) + (if r.valid then [] else [(r.field, r.reasons)])
  }

  function InvalidFields(results: seq<FieldResult>): set<string> {
    set i | 0 <= i < |results| && !results[i].valid :: results[i].field
  }

  predicate SharesInvalidField(results: seq<FieldResult>) {
    exists i, j :: 0 <= i < j < |results| && !results[i].valid && !results[j].valid && results[i].field == results[j].field
  }

  /** The reasons of the invalid results for `field`, in list order. */
  function ReasonsFor(results: seq<FieldResult>, field: string): seq<string>
    decreases |results|
  {
    if results == [] then []
    else
      var r := results[|results| - 1];
      ReasonsFor(results[..|results| - 1], field) + (if !r.valid && r.field == field then r.reasons else [])
  }

  /** The invalid fields of a concatenation are those of its two parts. */
  lemma InvalidFieldsConcat(first: seq<FieldResult>, second: seq<FieldResult>)
    ensures InvalidFields(first + second) == InvalidFields(first) + InvalidFields(second)
  {
    var s := first + second;
    forall f | f in InvalidFields(s) ensures f in InvalidFields(first) + InvalidFields(second) {
      var i :| 0 <= i < |s| && !s[i].valid && s[i].field == f;
      if i < |first| { assert first[i] == s[i]; } else { assert second[i - |first|] == s[i]; }
    }
    forall f | f in InvalidFields(first) + InvalidFields(second) ensures f in InvalidFields(s) {
      if f in InvalidFields(first) {
        var i :| 0 <= i < |first| && !first[i].valid && first[i].field == f;
        assert s[i] == first[i];
      } else {
        var i :| 0 <= i < |second| && !second[i].valid && second[i].field == f;
        assert s[|first| + i] == second[i];
      }
    }
  }

  lemma Snoc(results: seq<FieldResult>, r: FieldResult)
    ensures (results + [r])[..|results|] == results
    ensures InvalidFields(results + [r]) == InvalidFields(results) + (if r.valid then {} else {r.field})
    ensures SharesInvalidField(results + [r]) <==>
              SharesInvalidField(results) || (!r.valid && r.field in InvalidFields(results))
  {
    var s := results + [r];
    assert s[..|results|] == results;
    assert s[|results|] == r;
    forall f | f in InvalidFields(s) ensures f in InvalidFields(results) + (if r.valid then {} else {r.field}) {
      var i :| 0 <= i < |s| && !s[i].valid && s[i].field == f;
      if i < |results| { assert results[i] == s[i]; }
    }
    forall f | f in InvalidFields(results) ensures f in InvalidFields(s) {
      var i :| 0 <= i < |results| && !results[i].valid && results[i].field == f;
      assert s[i] == results[i];
    }
    if SharesInvalidField(s) {
      var i, j :| 0 <= i < j < |s| && !s[i].valid && !s[j].valid && s[i].field == s[j].field;
      assert s[i] == results[i];
      if j < |results| { assert s[j] == results[j]; }
    }
    if SharesInvalidField(results) {
      var i, j :| 0 <= i < j < |results| && !results[i].valid && !results[j].valid && results[i].field == results[j].field;
      assert s[i] == results[i] && s[j] == results[j];
    }
    if !r.valid && r.field in InvalidFields(results) {
      var i :| 0 <= i < |results| && !results[i].valid && results[i].field == r.field;
      assert s[i] == results[i];
    }
  }

  /** The entries handed to the collector: their keys are the fields of the
      invalid results, a key repeats iff two invalid results share a field, and
      gathering a key yields that field's reasons in list order. */
  lemma {:induction false} FailingEntriesSpec(results: seq<FieldResult>)
    ensures Collect.Keys(FailingEntries(results)) == InvalidFields(results)
    ensures Collect.HasDuplicateKey(FailingEntries(results)) <==> SharesInvalidField(results)
    ensures forall f :: Collect.Gather(FailingEntries(results), f) == ReasonsFor(results, f)
    decreases |results|
  {
    if results != [] {
      var p, r := results[..|results| - 1], results[|results| - 1];
      assert results == p + [r];
      Snoc(p, r);
      FailingEntriesSpec(p);
      var es := FailingEntries(p);
      if !r.valid {
        Collect.Snoc(es, (r.field, r.reasons));
        forall f ensures Collect.Gather(FailingEntries(results), f) == ReasonsFor(results, f) {
          var s := es + [(r.field, r.reasons)];
          assert s[..|s| - 1] == es;
        }
      } else {
        assert FailingEntries(results) == es + [] == es;
        forall f ensures Collect.Gather(FailingEntries(results), f) == ReasonsFor(results, f) {
          assert ReasonsFor(results, f) == ReasonsFor(p, f) + [];
        }
      }
    }
  }

  /** An invalid result's entry for its own field. */
  lemma InvalidResultListed(results: seq<FieldResult>, i: nat)
    requires i < |results| && !results[i].valid
    ensures exists k :: 0 <= k < |FailingEntries(results)| && FailingEntries(results)[k] == (results[i].field, results[i].reasons)
    decreases |results|
  {
    var p, r := results[..|results| - 1], results[|results| - 1];
    assert results == p + [r];
    if i == |results| - 1 {
      var es := FailingEntries(results);
      assert es[|es| - 1] == (r.field, r.reasons);
    } else {
      assert p[i] == results[i];
      InvalidResultListed(p, i);
      var k :| 0 <= k < |FailingEntries(p)| && FailingEntries(p)[k] == (results[i].field, results[i].reasons);
      var extra := if r.valid then [] else [(r.field, r.reasons)];
      assert FailingEntries(results) == FailingEntries(p) + extra;
      assert FailingEntries(results)[k] == FailingEntries(p)[k];
    }
  }
}
