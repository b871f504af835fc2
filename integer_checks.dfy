/** The checks the integer helpers append (`IntegerFieldValidator` and
    `IntegerValidator` use the same tuples and messages). Each unboxes its
    `Integer` argument, so it throws on null. */
module IntegerChecks {
  import opened Chain
  import Messages

  /** `lowerThan(max)` */
  function LowerThan(max: int): Check<int> {
    Check(OnValue((i: int) => i < max), Terminate.None, ErrorOn.Failure,
          "must be lower than " + Messages.IntToString(max) + ".")
  }

  /** `greaterThan(min)`, with the source's spelling of the message. */
  function GreaterThan(min: int): Check<int> {
    Check(OnValue((i: int) => i > min), Terminate.None, ErrorOn.Failure,
          "must be greather than " + Messages.IntToString(min) + ".")
  }

  /** `equals(value)` */
  function Equals(value: int): Check<int> {
    Check(OnValue((i: int) => i == value), Terminate.None, ErrorOn.Failure,
          "must be equal to " + Messages.IntToString(value) + ".")
  }

  /** `notEquals(value)` */
  function NotEquals(value: int): Check<int> {
    Check(OnValue((i: int) => i != value), Terminate.None, ErrorOn.Failure,
          "must be not equal to " + Messages.IntToString(value) + ".")
  }

  /** `lowerThan(m)` fails exactly from `m` up and `greaterThan(m)` exactly
      from `m` down: both bounds are strict, so the bound itself fails
      either check. */
  lemma BoundsStrict(m: int, i: int)
    ensures LowerThan(m).test(Present(i)) == Fail <==> i >= m
    ensures GreaterThan(m).test(Present(i)) == Fail <==> i <= m
    ensures LowerThan(m).test(Present(m)) == Fail && GreaterThan(m).test(Present(m)) == Fail
    ensures LowerThan(m + 1).test(Present(m)) == Pass && GreaterThan(m - 1).test(Present(m)) == Pass
  {
  }

  /** For the same argument, exactly one of `equals(x)` and `notEquals(x)`
      fails on any value. */
  lemma EqualsComplementary(value: int, i: int)
    ensures Equals(value).test(Present(i)) == Fail <==> NotEquals(value).test(Present(i)) == Pass
    ensures Equals(value).test(Present(i)) != Crash && NotEquals(value).test(Present(i)) != Crash
  {
  }

  /** Every integer check throws on null. */
  lemma ThrowOnNull(n: int)
    ensures LowerThan(n).test(Null) == Crash && GreaterThan(n).test(Null) == Crash
    ensures Equals(n).test(Null) == Crash && NotEquals(n).test(Null) == Crash
  {
  }

  /** The messages of the bound checks name the bound. */
  lemma BoundMessages()
    ensures GreaterThan(18).message == "must be greather than 18."
    ensures LowerThan(65).message == "must be lower than 65."
  {
    assert Messages.NatToString(18) == "18";
    assert Messages.NatToString(65) == "65";
  }
}
