/** The checks the string helpers append (`StringFieldValidator` and
    `StringValidator` use the same tuples and messages). A Java `String` is a
    sequence of chars; `length()` is its length. */
module StringChecks {
  import opened Chain
  import Messages

  /** `sub` starts at index `i` of `s`. */
  predicate OccursAt(sub: string, s: string, i: int) {
    0 <= i && i + |sub| <= |s| && s[i..i + |sub|] == sub
  }

  /** `s.contains(sub)` */
  predicate IsSubstring(sub: string, s: string) {
    exists i :: 0 <= i <= |s| && OccursAt(sub, s, i)
  }

  /** `minLength(size)` / `minSize(size)` */
  function MinLength(size: int): Check<string> {
    Check(OnValue((s: string) => |s| >= size), Terminate.None, ErrorOn.Failure,
          "should have at least " + Messages.IntToString(size) + " characters")
  }

  /** `maxLength(size)` / `maxSize(size)` */
  function MaxLength(size: int): Check<string> {
    Check(OnValue((s: string) => |s| <= size), Terminate.None, ErrorOn.Failure,
          "should not exceed " + Messages.IntToString(size) + " characters")
  }

  /** `contains(subString)` */
  function Contains(sub: string): Check<string> {
    Check(OnValue((s: string) => IsSubstring(sub, s)), Terminate.None, ErrorOn.Failure, "should contain " + sub)
  }

  /** `equals(value)` */
  function Equals(value: string): Check<string> {
    Check(OnValue((s: string) => s == value), Terminate.None, ErrorOn.Failure, "should be equal to " + value)
  }

  /** `notEquals(value)` */
  function NotEquals(value: string): Check<string> {
    Check(OnValue((s: string) => s != value), Terminate.None, ErrorOn.Failure, "should not be equal to " + value)
  }

  /** `isEmpty()` */
  function IsEmpty(): Check<string> {
    Check(OnValue((s: string) => |s| == 0), Terminate.None, ErrorOn.Failure, "should be empty")
  }

  /** `notEmpty()` */
  function NotEmpty(): Check<string> {
    Check(OnValue((s: string) => |s| != 0), Terminate.None, ErrorOn.Failure, "should not be empty")
  }

  /** `matchesRegex(regex)` / `regex(regex)`: `s == null || s.matches(regex)`.
      `matches` stands for `String.matches` with this `regex`. */
  function MatchesRegex(regex: string, matches: string -> bool): Check<string> {
    Check((p: Nullable<string>) => if p.Null? || matches(p.value) then Pass else Fail,
          Terminate.None, ErrorOn.Failure, "must match regex " + regex)
  }

  /** `minLength(n)` fails exactly below `n` characters and `maxLength(n)`
      exactly above, so both bounds are inclusive: a string of exactly its own
      length passes both, one character more is needed to fail the first
      and one fewer to fail the second. */
  lemma LengthBoundsInclusive(n: int, s: string)
    ensures MinLength(n).test(Present(s)) == Fail <==> |s| < n
    ensures MaxLength(n).test(Present(s)) == Fail <==> |s| > n
    ensures MinLength(|s|).test(Present(s)) == Pass && MaxLength(|s|).test(Present(s)) == Pass
    ensures MinLength(|s| + 1).test(Present(s)) == Fail
    ensures |s| > 0 ==> MaxLength(|s| - 1).test(Present(s)) == Fail
  {
  }

  /** `equals(v)` and `notEquals(v)` are complementary on every string. */
  lemma EqualsComplementary(value: string, s: string)
    ensures Equals(value).test(Present(s)) == Fail <==> NotEquals(value).test(Present(s)) == Pass
    ensures Equals(value).test(Present(s)) != Crash && NotEquals(value).test(Present(s)) != Crash
  {
  }

  /** `isEmpty()` and `notEmpty()` are complementary on every string. */
  lemma EmptyComplementary(s: string)
    ensures IsEmpty().test(Present(s)) == Fail <==> NotEmpty().test(Present(s)) == Pass
    ensures IsEmpty().test(Present(s)) != Crash && NotEmpty().test(Present(s)) != Crash
  {
  }

  /** `contains(sub)` passes on any string with `sub` inside it. */
  lemma ContainsInfix(sub: string, before: string, after: string)
    ensures Contains(sub).test(Present(before + sub + after)) == Pass
  {
    var s := before + sub + after;
    assert s[|before|..|before| + |sub|] == sub;
    assert OccursAt(sub, s, |before|);
  }

  /** `contains(sub)` fails on any string shorter than `sub`. */
  lemma ContainsNeedsRoom(sub: string, s: string)
    requires |s| < |sub|
    ensures Contains(sub).test(Present(s)) == Fail
  {
  }

  /** The regex check is the only string check that admits null; every other
      one calls a `String` method and throws. */
  lemma OnlyRegexAdmitsNull(regex: string, matches: string -> bool, size: int, text: string)
    ensures MatchesRegex(regex, matches).test(Null) == Pass
    ensures MinLength(size).test(Null) == Crash && MaxLength(size).test(Null) == Crash
    ensures Contains(text).test(Null) == Crash && Equals(text).test(Null) == Crash
    ensures NotEquals(text).test(Null) == Crash && IsEmpty().test(Null) == Crash && NotEmpty().test(Null) == Crash
  {
  }
}
