/** The date comparisons the `LocalDate` and `LocalDateTime` helpers build.
    A `LocalDate` or `LocalDateTime` is modelled by its position on the
    time line (an `int`, earlier is smaller), under which `isBefore`,
    `isAfter` and `equals` are `<`, `>` and `==`. Messages concatenate the
    date's `toString()`, which the model takes as a text argument. Each
    predicate dereferences the value, so it throws on null. */
module TemporalChecks {
  import opened Chain

  /** `before(date)` */
  function Before(date: int, dateText: string): Check<int> {
    Check(OnValue((d: int) => d < date), Terminate.None, ErrorOn.Failure, "must be before " + dateText)
  }

  /** `after(date)` */
  function After(date: int, dateText: string): Check<int> {
    Check(OnValue((d: int) => d > date), Terminate.None, ErrorOn.Failure, "must be after " + dateText)
  }

  /** `beforeOrEqual(date)`: not after. */
  function BeforeOrEqual(date: int, dateText: string): Check<int> {
    Check(OnValue((d: int) => !(d > date)), Terminate.None, ErrorOn.Failure, "must be on or before " + dateText)
  }

  /** `afterOrEqual(date)`: not before. */
  function AfterOrEqual(date: int, dateText: string): Check<int> {
    Check(OnValue((d: int) => !(d < date)), Terminate.None, ErrorOn.Failure, "must be on or after " + dateText)
  }

  /** `equal(date)` */
  function Equal(date: int, dateText: string): Check<int> {
    Check(OnValue((d: int) => d == date), Terminate.None, ErrorOn.Failure, "must be equal " + dateText)
  }

  /** `notEqual(date)` */
  function NotEqual(date: int, dateText: string): Check<int> {
    Check(OnValue((d: int) => d != date), Terminate.None, ErrorOn.Failure, "must be not equal " + dateText)
  }

  /** `before` and `after` are strict: the date itself fails both, and
      passes both of the "or equal" forms. */
  lemma StrictAtTheDate(date: int, t: string)
    ensures Before(date, t).test(Present(date)) == Fail && After(date, t).test(Present(date)) == Fail
    ensures BeforeOrEqual(date, t).test(Present(date)) == Pass && AfterOrEqual(date, t).test(Present(date)) == Pass
  {
  }

  /** On every value exactly one of `before`, `equal` and `after` passes. */
  lemma Trichotomy(date: int, t: string, d: int)
    ensures Before(date, t).test(Present(d)) == Pass || Equal(date, t).test(Present(d)) == Pass ||
            After(date, t).test(Present(d)) == Pass
    ensures Before(date, t).test(Present(d)) == Pass ==>
              Equal(date, t).test(Present(d)) == Fail && After(date, t).test(Present(d)) == Fail
    ensures Equal(date, t).test(Present(d)) == Pass ==> After(date, t).test(Present(d)) == Fail
  {
  }

  /** `beforeOrEqual` passes exactly when `after` fails, which is exactly
      when `before` or `equal` passes; dually for `afterOrEqual`. */
  lemma OrEqualIsNegation(date: int, t: string, d: int)
    ensures BeforeOrEqual(date, t).test(Present(d)) == Pass <==> After(date, t).test(Present(d)) == Fail
    ensures BeforeOrEqual(date, t).test(Present(d)) == Pass <==>
              Before(date, t).test(Present(d)) == Pass || Equal(date, t).test(Present(d)) == Pass
    ensures AfterOrEqual(date, t).test(Present(d)) == Pass <==> Before(date, t).test(Present(d)) == Fail
    ensures AfterOrEqual(date, t).test(Present(d)) == Pass <==>
              After(date, t).test(Present(d)) == Pass || Equal(date, t).test(Present(d)) == Pass
  {
  }

  /** `equal` and `notEqual` decide oppositely on every value. */
  lemma EqualComplementary(date: int, t: string, d: int)
    ensures Equal(date, t).test(Present(d)) == Fail <==> NotEqual(date, t).test(Present(d)) == Pass
    ensures Equal(date, t).test(Present(d)) != Crash && NotEqual(date, t).test(Present(d)) != Crash
  {
  }

  /** Every comparison throws on null. */
  lemma ThrowOnNull(date: int, t: string)
    ensures Before(date, t).test(Null) == Crash && After(date, t).test(Null) == Crash
    ensures BeforeOrEqual(date, t).test(Null) == Crash && AfterOrEqual(date, t).test(Null) == Crash
    ensures Equal(date, t).test(Null) == Crash && NotEqual(date, t).test(Null) == Crash
  {
  }
}
