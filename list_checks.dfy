/** The checks the list helpers append (`ListFieldValidator` and
    `ListValidator` use the same predicates; only the size messages differ,
    by a trailing period). Each predicate dereferences the list, so it
    throws on null. `String.format("%s", x)` of an item or a list is
    `toString()`, which the model takes as a text argument. */
module ListChecks {
  import opened Chain
  import Messages

  /** The elements of a list, ignoring order and multiplicity. */
  function Elements<T>(l: seq<T>): set<T> {
    set x | x in l
  }

  /** `new HashSet<>(l).containsAll(list)` */
  predicate IncludesAll<T(==)>(l: seq<T>, list: seq<T>) {
    forall i :: 0 <= i < |list| ==> list[i] in l
  }

  /** `moreThan(size)`: at least `size` elements. `end` is "" in
      `ListFieldValidator` and "." in `ListValidator`. */
  function MoreThan<T>(size: int, end: string): Check<seq<T>> {
    Check(OnValue((l: seq<T>) => |l| >= size), Terminate.None, ErrorOn.Failure,
          "must have more than " + Messages.IntToString(size) + " size" + end)
  }

  /** `lessThan(size)`: at most `size` elements. */
  function LessThan<T>(size: int, end: string): Check<seq<T>> {
    Check(OnValue((l: seq<T>) => |l| <= size), Terminate.None, ErrorOn.Failure,
          "must have less than " + Messages.IntToString(size) + " size" + end)
  }

  /** `contains(item)` */
  function Contains<T(==)>(item: T, itemText: string): Check<seq<T>> {
    Check(OnValue((l: seq<T>) => item in l), Terminate.None, ErrorOn.Failure,
          "must contain " + itemText)
  }

  /** `containsAll(list)` */
  function ContainsAll<T(==)>(list: seq<T>, listText: string): Check<seq<T>> {
    Check(OnValue((l: seq<T>) => IncludesAll(l, list)), Terminate.None, ErrorOn.Failure,
          "must contain all of " + listText)
  }

  /** `notContains(item)`, which reuses the message of `contains`. */
  function NotContains<T(==)>(item: T, itemText: string): Check<seq<T>> {
    Check(OnValue((l: seq<T>) => item !in l), Terminate.None, ErrorOn.Failure,
          "must contain " + itemText)
  }

  /** `equals(list)`: element-wise equality, in order. */
  function Equals<T(==)>(list: seq<T>, listText: string): Check<seq<T>> {
    Check(OnValue((l: seq<T>) => l == list), Terminate.None, ErrorOn.Failure,
          "must be equal to " + listText)
  }

  /** `notEquals(list)` */
  function NotEquals<T(==)>(list: seq<T>, listText: string): Check<seq<T>> {
    Check(OnValue((l: seq<T>) => l != list), Terminate.None, ErrorOn.Failure,
          "must be not equal to " + listText)
  }

  /** `isEmpty()` */
  function IsEmpty<T>(): Check<seq<T>> {
    Check(OnValue((l: seq<T>) => |l| == 0), Terminate.None, ErrorOn.Failure, "must be empty")
  }

  /** `notEmpty()`, which reuses the message of `isEmpty`. */
  function NotEmpty<T>(): Check<seq<T>> {
    Check(OnValue((l: seq<T>) => |l| != 0), Terminate.None, ErrorOn.Failure, "must be empty")
  }

  /** `moreThan(n)` fails exactly below `n` elements and `lessThan(n)`
      exactly above: despite their names, both admit the bound itself. */
  lemma SizeBoundsInclusive<T>(n: int, l: seq<T>, end: string)
    ensures MoreThan<T>(n, end).test(Present(l)) == Fail <==> |l| < n
    ensures LessThan<T>(n, end).test(Present(l)) == Fail <==> |l| > n
    ensures MoreThan<T>(|l|, end).test(Present(l)) == Pass
    ensures LessThan<T>(|l|, end).test(Present(l)) == Pass
    ensures MoreThan<T>(|l| + 1, end).test(Present(l)) == Fail
    ensures LessThan<T>(|l| - 1, end).test(Present(l)) == Fail
  {
  }

  /** `contains(x)` and `notContains(x)` decide oppositely on every list,
      yet report the same message. */
  lemma ContainsComplementary<T>(item: T, itemText: string, l: seq<T>)
    ensures Contains(item, itemText).test(Present(l)) == Fail <==> NotContains(item, itemText).test(Present(l)) == Pass
    ensures Contains(item, itemText).test(Present(l)) != Crash && NotContains(item, itemText).test(Present(l)) != Crash
    ensures Contains(item, itemText).message == NotContains(item, itemText).message
  {
  }

  /** `isEmpty()` and `notEmpty()` decide oppositely on every list, yet
      report the same message. */
  lemma EmptyComplementary<T>(l: seq<T>)
    ensures IsEmpty<T>().test(Present(l)) == Fail <==> NotEmpty<T>().test(Present(l)) == Pass
    ensures IsEmpty<T>().test(Present(l)) != Crash && NotEmpty<T>().test(Present(l)) != Crash
    ensures IsEmpty<T>().message == NotEmpty<T>().message
  {
  }

  /** `equals(x)` and `notEquals(x)` decide oppositely on every list. */
  lemma EqualsComplementary<T>(list: seq<T>, listText: string, l: seq<T>)
    ensures Equals(list, listText).test(Present(l)) == Fail <==> NotEquals(list, listText).test(Present(l)) == Pass
    ensures Equals(list, listText).test(Present(l)) != Crash && NotEquals(list, listText).test(Present(l)) != Crash
  {
  }

  /** `containsAll(list)` is set inclusion: it passes exactly when every
      element of `list` passes `contains`, and it ignores the order and the
      multiplicity of both lists. */
  lemma ContainsAllIsInclusion<T>(list: seq<T>, listText: string, itemText: string, l: seq<T>)
    ensures ContainsAll(list, listText).test(Present(l)) == Pass <==> Elements(list) <= Elements(l)
    ensures ContainsAll(list, listText).test(Present(l)) == Pass <==>
              forall i :: 0 <= i < |list| ==> Contains(list[i], itemText).test(Present(l)) == Pass
  {
    if Elements(list) <= Elements(l) {
      forall i | 0 <= i < |list| ensures list[i] in l {
        assert list[i] in Elements(list);
      }
    }
    if IncludesAll(l, list) {
      forall x | x in Elements(list) ensures x in Elements(l) {
        var i :| 0 <= i < |list| && list[i] == x;
      }
    }
    if forall i :: 0 <= i < |list| ==> Contains(list[i], itemText).test(Present(l)) == Pass {
      forall i | 0 <= i < |list| ensures list[i] in l {
        assert Contains(list[i], itemText).test(Present(l)) == Pass;
      }
    }
  }

  /** Two lists with the same elements are judged alike by `containsAll`,
      whatever the order or the repetitions. */
  lemma ContainsAllSameElements<T>(list: seq<T>, listText: string, l1: seq<T>, l2: seq<T>)
    requires Elements(l1) == Elements(l2)
    ensures ContainsAll(list, listText).test(Present(l1)) == ContainsAll(list, listText).test(Present(l2))
  {
    ContainsAllIsInclusion(list, listText, "", l1);
    ContainsAllIsInclusion(list, listText, "", l2);
  }

  /** A list that passes `equals(list)` also passes `containsAll(list)`. */
  lemma EqualsImpliesContainsAll<T>(list: seq<T>, listText: string, l: seq<T>)
    requires Equals(list, listText).test(Present(l)) == Pass
    ensures ContainsAll(list, listText).test(Present(l)) == Pass
  {
  }

  /** Every list check throws on null. */
  lemma ThrowOnNull<T>(n: int, end: string, item: T, list: seq<T>, text: string)
    ensures MoreThan<T>(n, end).test(Null) == Crash && LessThan<T>(n, end).test(Null) == Crash
    ensures Contains(item, text).test(Null) == Crash && NotContains(item, text).test(Null) == Crash
    ensures ContainsAll(list, text).test(Null) == Crash
    ensures Equals(list, text).test(Null) == Crash && NotEquals(list, text).test(Null) == Crash
    ensures IsEmpty<T>().test(Null) == Crash && NotEmpty<T>().test(Null) == Crash
  {
  }
}
