/** `ListFieldValidator`: static factories that seed a `FieldValidator` over
    lists, and builders that return a new validator holding the receiver's
    checks plus one. There is no `optional()` factory. */
module ListFieldValidators {
  import opened Chain
  import opened FieldResults
  import opened FieldValidators
  import Seeds
  import ListChecks

  /** `new ListFieldValidator<>(predicate, terminate, errorOn, message)` */
  method Start<T>(c: Check<seq<T>>) returns (r: FieldValidator<seq<T>>)
    ensures fresh(r) && r.vals == [c]
  {
    r := new FieldValidator(c.test, c.terminate, c.errorOn, c.message);
  }

  /** `new ListFieldValidator<K>(this, predicate, terminate, errorOn, message)` */
  method Extend<T>(v: FieldValidator<seq<T>>, c: Check<seq<T>>) returns (r: FieldValidator<seq<T>>)
    ensures fresh(r) && r.vals == v.vals + [c]
  {
    r := new FieldValidator.Extend(v, c.test, c.terminate, c.errorOn, c.message);
  }

  method NonNull<T>() returns (r: FieldValidator<seq<T>>)
    ensures fresh(r) && r.vals == [Seeds.NonNull("list must be non null")]
  {
    r := Start(Seeds.NonNull("list must be non null"));
  }

  method IsNull<T>() returns (r: FieldValidator<seq<T>>)
    ensures fresh(r) && r.vals == [Seeds.IsNull("list must be null")]
  {
    r := Start(Seeds.IsNull("list must be null"));
  }

  method MoreThan<T>(v: FieldValidator<seq<T>>, size: int) returns (r: FieldValidator<seq<T>>)
    ensures fresh(r) && r.vals == v.vals + [ListChecks.MoreThan(size, "")]
  {
    r := Extend(v, ListChecks.MoreThan(size, ""));
  }

  method LessThan<T>(v: FieldValidator<seq<T>>, size: int) returns (r: FieldValidator<seq<T>>)
    ensures fresh(r) && r.vals == v.vals + [ListChecks.LessThan(size, "")]
  {
    r := Extend(v, ListChecks.LessThan(size, ""));
  }

  /** `moreThan(minSize).lessThan(maxSize)`: the lower bound first. */
  method Between<T>(v: FieldValidator<seq<T>>, minSize: int, maxSize: int) returns (r: FieldValidator<seq<T>>)
    ensures fresh(r) && r.vals == v.vals + [ListChecks.MoreThan(minSize, ""), ListChecks.LessThan(maxSize, "")]
  {
    var lower := MoreThan(v, minSize);
    r := LessThan(lower, maxSize);
  }

  method Contains<T(==)>(v: FieldValidator<seq<T>>, item: T, itemText: string) returns (r: FieldValidator<seq<T>>)
    ensures fresh(r) && r.vals == v.vals + [ListChecks.Contains(item, itemText)]
  {
    r := Extend(v, ListChecks.Contains(item, itemText));
  }

  method ContainsAll<T(==)>(v: FieldValidator<seq<T>>, list: seq<T>, listText: string) returns (r: FieldValidator<seq<T>>)
    ensures fresh(r) && r.vals == v.vals + [ListChecks.ContainsAll(list, listText)]
  {
    r := Extend(v, ListChecks.ContainsAll(list, listText));
  }

  method NotContains<T(==)>(v: FieldValidator<seq<T>>, item: T, itemText: string) returns (r: FieldValidator<seq<T>>)
    ensures fresh(r) && r.vals == v.vals + [ListChecks.NotContains(item, itemText)]
  {
    r := Extend(v, ListChecks.NotContains(item, itemText));
  }

  method Equals<T(==)>(v: FieldValidator<seq<T>>, list: seq<T>, listText: string) returns (r: FieldValidator<seq<T>>)
    ensures fresh(r) && r.vals == v.vals + [ListChecks.Equals(list, listText)]
  {
    r := Extend(v, ListChecks.Equals(list, listText));
  }

  method NotEquals<T(==)>(v: FieldValidator<seq<T>>, list: seq<T>, listText: string) returns (r: FieldValidator<seq<T>>)
    ensures fresh(r) && r.vals == v.vals + [ListChecks.NotEquals(list, listText)]
  {
    r := Extend(v, ListChecks.NotEquals(list, listText));
  }

  method IsEmpty<T>(v: FieldValidator<seq<T>>) returns (r: FieldValidator<seq<T>>)
    ensures fresh(r) && r.vals == v.vals + [ListChecks.IsEmpty()]
  {
    r := Extend(v, ListChecks.IsEmpty());
  }

  method NotEmpty<T>(v: FieldValidator<seq<T>>) returns (r: FieldValidator<seq<T>>)
    ensures fresh(r) && r.vals == v.vals + [ListChecks.NotEmpty()]
  {
    r := Extend(v, ListChecks.NotEmpty());
  }

  /** The reasons the two size bounds give for `l`, lower bound first. */
  function SizeReasons<T>(minSize: int, maxSize: int, l: seq<T>): seq<string> {
    (if |l| < minSize then [ListChecks.MoreThan<T>(minSize, "").message] else []) +
    (if |l| > maxSize then [ListChecks.LessThan<T>(maxSize, "").message] else [])
  }

  /** `between(a, b)` after any checks that let `l` through: the result is
      invalid iff those checks fail or `|l|` is outside `[a, b]`, and the
      bound messages follow the earlier reasons, lower bound first. */
  lemma BetweenOutcome<T>(checks: seq<Check<seq<T>>>, field: string, minSize: int, maxSize: int, l: seq<T>)
    requires !StopsWithin(checks, Present(l)) && Validation(checks, field, Present(l)).Returned?
    ensures Validation(checks + [ListChecks.MoreThan(minSize, ""), ListChecks.LessThan(maxSize, "")], field, Present(l)) ==
              Returned(FieldResult(Validation(checks, field, Present(l)).value.valid && minSize <= |l| <= maxSize,
                                   field,
                                   Validation(checks, field, Present(l)).value.reasons + SizeReasons(minSize, maxSize, l)))
  {
    var lo, hi := ListChecks.MoreThan<T>(minSize, ""), ListChecks.LessThan<T>(maxSize, "");
    EvalTwo(lo, hi, Present(l));
    ValidationAppend(checks, [lo, hi], field, Present(l));
  }

  /** `nonNull().notEmpty()` on an empty list: invalid, and the reason it
      gives is "must be empty". */
  method NotEmptyOnEmpty<T>() returns (r: Outcome<FieldResult>)
    ensures r == Returned(FieldResults.Fail("items", "must be empty"))
  {
    var v := NonNull<T>();
    v := NotEmpty(v);
    var none: seq<T> := [];
    r := v.Validate("items", Present(none));
    Seeds.NonNullAdmitsValue("list must be non null", [ListChecks.NotEmpty<T>()], "items", none);
    EvalOne(ListChecks.NotEmpty<T>(), Present(none));
  }

  /** `nonNull().containsAll(list)` is valid on any list holding each
      element of `list` at least once, in any order. */
  method ContainsAllOnSuperset<T(==)>(list: seq<T>, listText: string, l: seq<T>) returns (r: Outcome<FieldResult>)
    requires ListChecks.Elements(list) <= ListChecks.Elements(l)
    ensures r == Returned(Ok("items"))
  {
    var v := NonNull<T>();
    v := ContainsAll(v, list, listText);
    r := v.Validate("items", Present(l));
    var c := ListChecks.ContainsAll(list, listText);
    Seeds.NonNullAdmitsValue("list must be non null", [c], "items", l);
    ListChecks.ContainsAllIsInclusion(list, listText, "", l);
    EvalOne(c, Present(l));
  }

  /** `isEmpty()` and `notEmpty()` added to checks that accept `l`: exactly
      one accepts `l`, and the other fails, both with the same reason
      "must be empty". */
  lemma EmptyOrNotEmpty<T>(checks: seq<Check<seq<T>>>, field: string, l: seq<T>)
    requires !StopsWithin(checks, Present(l)) && Validation(checks, field, Present(l)) == Returned(Ok(field))
    ensures Validation(checks + [ListChecks.IsEmpty()], field, Present(l)) ==
              Returned(if |l| == 0 then Ok(field) else FieldResults.Fail(field, "must be empty"))
    ensures Validation(checks + [ListChecks.NotEmpty()], field, Present(l)) ==
              Returned(if |l| != 0 then Ok(field) else FieldResults.Fail(field, "must be empty"))
  {
    OppositeChecks(checks, ListChecks.IsEmpty(), ListChecks.NotEmpty(), field, Present(l));
  }

  /** `contains(item)` and `notContains(item)` added to checks that accept
      `l`: exactly one accepts `l`, and the other fails, both with the reason
      "must contain" and the item. */
  lemma ContainsOrNotContains<T>(checks: seq<Check<seq<T>>>, field: string, item: T, itemText: string, l: seq<T>)
    requires !StopsWithin(checks, Present(l)) && Validation(checks, field, Present(l)) == Returned(Ok(field))
    ensures Validation(checks + [ListChecks.Contains(item, itemText)], field, Present(l)) ==
              Returned(if item in l then Ok(field) else FieldResults.Fail(field, "must contain " + itemText))
    ensures Validation(checks + [ListChecks.NotContains(item, itemText)], field, Present(l)) ==
              Returned(if item !in l then Ok(field) else FieldResults.Fail(field, "must contain " + itemText))
  {
    OppositeChecks(checks, ListChecks.Contains(item, itemText), ListChecks.NotContains(item, itemText), field, Present(l));
  }
}
