/** `Collectors.toMap` over a stream of (field, reasons) entries, in its two
    forms: without a merge function (a repeated key throws
    IllegalStateException) and with a merge function that concatenates. */
module Collect {

  type Entry = (string, seq<string>)

  /** A `toMap` collection that either completes or throws on a repeated key. */
  datatype Attempt<T> = Done(value: T) | DuplicateKey(key: string)

  function Keys(es: seq<Entry>): set<string> {
    set i | 0 <= i < |es| :: es[i].0
  }

  predicate HasDuplicateKey(es: seq<Entry>) {
    exists i, j :: 0 <= i < j < |es| && es[i].0 == es[j].0
  }

  /** `Collectors.toMap(key, value)`: entries are put in stream order; the
      first entry whose key is already present throws. */
  function ToMap(es: seq<Entry>): Attempt<map<string, seq<string>>>
    decreases |es|
  {
    if es == [] then Done(map[])
    else
      var e := es[|es| - 1];
      match ToMap(es[..|es| - 1])
      case DuplicateKey(k) => DuplicateKey(k)
      case Done(m) => if e.0 in m then DuplicateKey(e.0) else Done(m[e.0 := e.1])
  }

  /** `Collectors.toMap(key, value, merge)` with a merge that builds a fresh
      list of the existing reasons followed by the new ones. */
  function ToMapMerging(es: seq<Entry>): map<string, seq<string>>
    decreases |es|
  {
    if es == [] then map[]
    else
      var e := es[|es| - 1];
      var m := ToMapMerging(es[..|es| - 1]);
      if e.0 in m then m[e.0 := m[e.0] + e.1] else m[e.0 := e.1]
  }

  /** Everything listed under key `k`, in stream order. */
  function Gather(es: seq<Entry>, k: string): seq<string>
    decreases |es|
  {
    if es == [] then []
    else
      var e := es[|es| - 1];
      Gather(es[..|es| - 1], k) + (if e.0 == k then e.1 else [])
  }

  /** Adding one entry at the end of the stream. */
  lemma Snoc(es: seq<Entry>, e: Entry)
    ensures (es + [e])[..|es|] == es && (es + [e])[|es|] == e
    ensures Keys(es + [e]) == Keys(es) + {e.0}
    ensures HasDuplicateKey(es + [e]) <==> HasDuplicateKey(es) || e.0 in Keys(es)
  {
    var s := es + [e];
    assert s[..|es|] == es;
    assert Keys(s) == Keys(es) + {e.0} by {
      forall k | k in Keys(s) ensures k in Keys(es) + {e.0} {
        var i :| 0 <= i < |s| && s[i].0 == k;
        if i < |es| { assert es[i] == s[i]; }
      }
      forall k | k in Keys(es) + {e.0} ensures k in Keys(s) {
        if k == e.0 { assert s[|es|].0 == k; }
        else { var i :| 0 <= i < |es| && es[i].0 == k; assert s[i] == es[i]; }
      }
    }
    if HasDuplicateKey(s) {
      var i, j :| 0 <= i < j < |s| && s[i].0 == s[j].0;
      if j < |es| { assert es[i] == s[i] && es[j] == s[j]; }
      else { assert es[i] == s[i]; }
    }
    if HasDuplicateKey(es) {
      var i, j :| 0 <= i < j < |es| && es[i].0 == es[j].0;
      assert s[i] == es[i] && s[j] == es[j];
    }
    if e.0 in Keys(es) {
      var i :| 0 <= i < |es| && es[i].0 == e.0;
      assert s[i] == es[i] && s[|es|] == e;
    }
  }

  /** `toMap` without a merge function throws exactly when two entries share a
      key, and the key it reports is such a key; when it completes, its keys are
      exactly the entries' keys and each key maps to its entry's reasons. */
  lemma {:induction false} ToMapSpec(es: seq<Entry>)
    ensures ToMap(es).DuplicateKey? <==> HasDuplicateKey(es)
    ensures ToMap(es).DuplicateKey? ==>
              exists i, j :: 0 <= i < j < |es| && es[i].0 == es[j].0 == ToMap(es).key
    ensures ToMap(es).Done? ==>
              ToMap(es).value.Keys == Keys(es) &&
              forall i :: 0 <= i < |es| ==> ToMap(es).value[es[i].0] == es[i].1
    decreases |es|
  {
    if es != [] {
      var p, e := es[..|es| - 1], es[|es| - 1];
      assert es == p + [e];
      Snoc(p, e);
      ToMapSpec(p);
      match ToMap(p)
      case DuplicateKey(k) =>
        var i, j :| 0 <= i < j < |p| && p[i].0 == p[j].0 == k;
        assert es[i] == p[i] && es[j] == p[j];
      case Done(m) =>
        if e.0 in m {
          var i :| 0 <= i < |p| && p[i].0 == e.0;
          assert es[i] == p[i] && es[|p|] == e;
        } else {
          forall i | 0 <= i < |es| ensures ToMap(es).value[es[i].0] == es[i].1 {
            if i < |p| {
              assert es[i] == p[i];
              assert p[i].0 in m;
            }
          }
        }
    }
  }

  /** `toMap` with the concatenating merge never throws; its keys are exactly
      the entries' keys, and each key holds everything listed under it, in
      stream order (an earlier entry's reasons first, never overwritten). */
  lemma {:induction false} ToMapMergingSpec(es: seq<Entry>)
    ensures ToMapMerging(es).Keys == Keys(es)
    ensures forall k :: k in ToMapMerging(es) ==> ToMapMerging(es)[k] == Gather(es, k)
    decreases |es|
  {
    if es != [] {
      var p, e := es[..|es| - 1], es[|es| - 1];
      assert es == p + [e];
      Snoc(p, e);
      ToMapMergingSpec(p);
      GatherAbsent(p, e.0);
    }
  }

  lemma {:induction false} GatherAbsent(es: seq<Entry>, k: string)
    ensures k !in Keys(es) ==> Gather(es, k) == []
    decreases |es|
  {
    if es != [] && k !in Keys(es) {
      var p, e := es[..|es| - 1], es[|es| - 1];
      assert es == p + [e];
      Snoc(p, e);
      GatherAbsent(p, k);
    }
  }

  /** When no key repeats, the two forms of `toMap` build the same map. */
  lemma {:induction false} ToMapAgreesWithMerging(es: seq<Entry>)
    ensures ToMap(es).Done? ==> ToMap(es).value == ToMapMerging(es)
    decreases |es|
  {
    if es != [] {
      var p := es[..|es| - 1];
      ToMapAgreesWithMerging(p);
    }
  }
}
