/** `ListValidator`: static factories that seed a `Validator` over lists,
    and builders that append to the receiver in place through `add` and
    return it. Its size messages end with a period. */
module ListValidators {
  import opened Chain
  import opened Results
  import opened Validators
  import Seeds
  import ListChecks

  /** `new ListValidator<>(predicate, terminate, errorOn, message)` */
  method Start<T>(c: Check<seq<T>>) returns (r: Validator<seq<T>>)
    ensures fresh(r) && r.vals == [c]
  {
    r := new Validator(c.test, c.terminate, c.errorOn, c.message);
  }

  /** `(ListValidator<K>) this.add(predicate, terminate, errorOn, message)` */
  method Append<T>(v: Validator<seq<T>>, c: Check<seq<T>>) returns (r: Validator<seq<T>>)
    modifies v
    ensures r == v && v.vals == old(v.vals) + [c]
  {
    r := v.Add(c.test, c.terminate, c.errorOn, c.message);
  }

  method NonNull<T>() returns (r: Validator<seq<T>>)
    ensures fresh(r) && r.vals == [Seeds.NonNull("list must be non null")]
  {
    r := Start(Seeds.NonNull("list must be non null"));
  }

  method IsNull<T>() returns (r: Validator<seq<T>>)
    ensures fresh(r) && r.vals == [Seeds.IsNull("list must be null")]
  {
    r := Start(Seeds.IsNull("list must be null"));
  }

  method MoreThan<T>(v: Validator<seq<T>>, size: int) returns (r: Validator<seq<T>>)
    modifies v
    ensures r == v && v.vals == old(v.vals) + [ListChecks.MoreThan(size, ".")]
  {
    r := Append(v, ListChecks.MoreThan(size, "."));
  }

  method LessThan<T>(v: Validator<seq<T>>, size: int) returns (r: Validator<seq<T>>)
    modifies v
    ensures r == v && v.vals == old(v.vals) + [ListChecks.LessThan(size, ".")]
  {
    r := Append(v, ListChecks.LessThan(size, "."));
  }

  /** `moreThan(minSize).lessThan(maxSize)`: the lower bound first. */
  method Between<T>(v: Validator<seq<T>>, minSize: int, maxSize: int) returns (r: Validator<seq<T>>)
    modifies v
    ensures r == v && v.vals == old(v.vals) + [ListChecks.MoreThan(minSize, "."), ListChecks.LessThan(maxSize, ".")]
  {
    var lower := MoreThan(v, minSize);
    r := LessThan(lower, maxSize);
  }

  method Contains<T(==)>(v: Validator<seq<T>>, item: T, itemText: string) returns (r: Validator<seq<T>>)
    modifies v
    ensures r == v && v.vals == old(v.vals) + [ListChecks.Contains(item, itemText)]
  {
    r := Append(v, ListChecks.Contains(item, itemText));
  }

  method ContainsAll<T(==)>(v: Validator<seq<T>>, list: seq<T>, listText: string) returns (r: Validator<seq<T>>)
    modifies v
    ensures r == v && v.vals == old(v.vals) + [ListChecks.ContainsAll(list, listText)]
  {
    r := Append(v, ListChecks.ContainsAll(list, listText));
  }

  method NotContains<T(==)>(v: Validator<seq<T>>, item: T, itemText: string) returns (r: Validator<seq<T>>)
    modifies v
    ensures r == v && v.vals == old(v.vals) + [ListChecks.NotContains(item, itemText)]
  {
    r := Append(v, ListChecks.NotContains(item, itemText));
  }

  method Equals<T(==)>(v: Validator<seq<T>>, list: seq<T>, listText: string) returns (r: Validator<seq<T>>)
    modifies v
    ensures r == v && v.vals == old(v.vals) + [ListChecks.Equals(list, listText)]
  {
    r := Append(v, ListChecks.Equals(list, listText));
  }

  /** The source declares the argument as a list of strings; the model
      compares against a list of the validator's own element type. */
  method NotEquals<T(==)>(v: Validator<seq<T>>, list: seq<T>, listText: string) returns (r: Validator<seq<T>>)
    modifies v
    ensures r == v && v.vals == old(v.vals) + [ListChecks.NotEquals(list, listText)]
  {
    r := Append(v, ListChecks.NotEquals(list, listText));
  }

  method IsEmpty<T>(v: Validator<seq<T>>) returns (r: Validator<seq<T>>)
    modifies v
    ensures r == v && v.vals == old(v.vals) + [ListChecks.IsEmpty()]
  {
    r := Append(v, ListChecks.IsEmpty());
  }

  method NotEmpty<T>(v: Validator<seq<T>>) returns (r: Validator<seq<T>>)
    modifies v
    ensures r == v && v.vals == old(v.vals) + [ListChecks.NotEmpty()]
  {
    r := Append(v, ListChecks.NotEmpty());
  }

  /** `nonNull().notContains(item)` on a list holding `item`: invalid, and
      the reason it gives is "must contain" followed by the item. */
  method NotContainsOnMember<T(==)>(item: T, itemText: string, l: seq<T>) returns (r: Outcome<Result>)
    requires item in l
    ensures r == Returned(Results.Fail("items", "must contain " + itemText))
  {
    var v := NonNull<T>();
    v := NotContains(v, item, itemText);
    r := v.Test("items", Present(l));
    var c := ListChecks.NotContains(item, itemText);
    Seeds.NonNullAdmitsValue("list must be non null", [c], "items", l);
    EvalOne(c, Present(l));
  }

  /** `nonNull().between(a, b)` on a list whose size lies in `[a, b]`: both
      bounds are inclusive, so the result is `Result.ok`. */
  method BetweenWithin<T>(minSize: int, maxSize: int, l: seq<T>) returns (r: Outcome<Result>)
    requires minSize <= |l| <= maxSize
    ensures r == Returned(Ok("items"))
  {
    var v := NonNull<T>();
    v := Between(v, minSize, maxSize);
    r := v.Test("items", Present(l));
    var lo, hi := ListChecks.MoreThan<T>(minSize, "."), ListChecks.LessThan<T>(maxSize, ".");
    assert v.vals == [Seeds.NonNull("list must be non null")] + [lo, hi];
    Seeds.NonNullAdmitsValue("list must be non null", [lo, hi], "items", l);
    EvalTwo(lo, hi, Present(l));
  }

  /** Under `test`, `contains(item)` and `notContains(item)` added to checks
      that accept `l`: exactly one gives `Result.ok`, and the other
      `Result.fail` with "must contain" and the item. */
  lemma ContainsOrNotContains<T>(checks: seq<Check<seq<T>>>, field: string, item: T, itemText: string, l: seq<T>)
    requires !StopsWithin(checks, Present(l)) && Testing(checks, field, Present(l)) == Returned(Ok(field))
    ensures Testing(checks + [ListChecks.Contains(item, itemText)], field, Present(l)) ==
              Returned(if item in l then Ok(field) else Results.Fail(field, "must contain " + itemText))
    ensures Testing(checks + [ListChecks.NotContains(item, itemText)], field, Present(l)) ==
              Returned(if item !in l then Ok(field) else Results.Fail(field, "must contain " + itemText))
  {
    OppositeChecks(checks, ListChecks.Contains(item, itemText), ListChecks.NotContains(item, itemText), field, Present(l));
  }
}
