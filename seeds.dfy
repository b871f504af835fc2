/** The one-check seeds the helpers' static factories build (`nonNull()`,
    `isNull()` and the three different `optional()`s), and what each does to
    whatever checks follow it, under both `validate` and `test`. */
module Seeds {
  import opened Chain
  import FieldResults
  import Results
  import FieldValidators
  import Validators

  /** `nonNull()`: `Objects::nonNull`, stop on failure, report `message`. */
  function NonNull<K>(message: string): Check<K> {
    Check(NonNullTest, Terminate.Failure, ErrorOn.Failure, message)
  }

  /** `isNull()`: `Objects::isNull`, stop on failure, report `message`. */
  function IsNull<K>(message: string): Check<K> {
    Check(IsNullTest, Terminate.Failure, ErrorOn.Failure, message)
  }

  /** `optional()` of the string and boolean field helpers: `Objects::isNull`,
      stop on success, silent. */
  function SkipIfNull<K>(): Check<K> {
    Check(IsNullTest, Terminate.Success, ErrorOn.None, "")
  }

  /** `optional()` of the integer and date helpers: `Objects::nonNull`, stop
      on failure, silent. */
  function RequirePresent<K>(): Check<K> {
    Check(NonNullTest, Terminate.Failure, ErrorOn.None, "")
  }

  /** `optional()` of `StringValidator`: `s -> true`, never stops, silent. */
  function AlwaysPass<K>(): Check<K> {
    Check((_: Nullable<K>) => Pass, Terminate.None, ErrorOn.None, "")
  }

  /** Splitting off the first check of a chain. */
  lemma Cons<K>(c: Check<K>, rest: seq<Check<K>>)
    ensures ([c] + rest)[0] == c && ([c] + rest)[1..] == rest && [c] + rest != []
  {
  }

  /** A first check that passes without stopping leaves the outcome to the
      rest of the chain. */
  lemma PassingHeadIsNeutral<K>(c: Check<K>, rest: seq<Check<K>>, field: string, param: Nullable<K>)
    requires c.test(param) == Pass && c.terminate != Terminate.Success
    ensures FieldValidators.Validation([c] + rest, field, param) == FieldValidators.Validation(rest, field, param)
    ensures Validators.Testing([c] + rest, field, param) == Validators.Testing(rest, field, param)
  {
    Cons(c, rest);
    assert Eval([c] + rest, param) == Eval(rest, param);
  }

  /** `nonNull()` on null: invalid with exactly its message, and no later
      check is called. */
  lemma NonNullRejectsNull<K>(message: string, rest: seq<Check<K>>, field: string)
    ensures FieldValidators.Validation([NonNull(message)] + rest, field, Null) == Returned(FieldResults.Fail(field, message))
    ensures Validators.Testing([NonNull(message)] + rest, field, Null) == Returned(Results.Fail(field, message))
  {
    Cons(NonNull<K>(message), rest);
  }

  /** `nonNull()` on a value: the rest of the chain decides. */
  lemma NonNullAdmitsValue<K>(message: string, rest: seq<Check<K>>, field: string, v: K)
    ensures FieldValidators.Validation([NonNull(message)] + rest, field, Present(v)) == FieldValidators.Validation(rest, field, Present(v))
    ensures Validators.Testing([NonNull(message)] + rest, field, Present(v)) == Validators.Testing(rest, field, Present(v))
  {
    PassingHeadIsNeutral(NonNull<K>(message), rest, field, Present(v));
  }

  /** `isNull()` on a value: invalid with exactly its message. */
  lemma IsNullRejectsValue<K>(message: string, rest: seq<Check<K>>, field: string, v: K)
    ensures FieldValidators.Validation([IsNull(message)] + rest, field, Present(v)) == Returned(FieldResults.Fail(field, message))
    ensures Validators.Testing([IsNull(message)] + rest, field, Present(v)) == Returned(Results.Fail(field, message))
  {
    Cons(IsNull<K>(message), rest);
  }

  /** `isNull()` on null: the rest of the chain decides. */
  lemma IsNullAdmitsNull<K>(message: string, rest: seq<Check<K>>, field: string)
    ensures FieldValidators.Validation([IsNull(message)] + rest, field, Null) == FieldValidators.Validation(rest, field, Null)
    ensures Validators.Testing([IsNull(message)] + rest, field, Null) == Validators.Testing(rest, field, Null)
  {
    PassingHeadIsNeutral(IsNull<K>(message), rest, field, Null);
  }

  /** The string/boolean `optional()` on null: valid, whatever follows. */
  lemma SkipIfNullAcceptsNull<K>(rest: seq<Check<K>>, field: string)
    ensures FieldValidators.Validation([SkipIfNull()] + rest, field, Null) == Returned(FieldResults.Ok(field))
  {
    Cons(SkipIfNull<K>(), rest);
  }

  /** The string/boolean `optional()` on a value: its check fails silently, so
      the result is invalid even when every later check passes; its reasons
      are those of the later checks. */
  lemma SkipIfNullRejectsValue<K>(rest: seq<Check<K>>, field: string, v: K)
    ensures FieldValidators.Validation([SkipIfNull()] + rest, field, Present(v)) ==
              match FieldValidators.Validation(rest, field, Present(v))
              case NullPointerException => NullPointerException
              case Returned(r) => Returned(FieldResults.FailWith(field, r.reasons))
  {
    Cons(SkipIfNull<K>(), rest);
    ReasonsNeedFailures(rest, Present(v));
    if Eval(rest, Present(v)).Returned? {
      assert [] + Eval(rest, Present(v)).value.reasons == Eval(rest, Present(v)).value.reasons;
    }
  }

  /** The integer/date `optional()` on null: invalid with no reason. */
  lemma RequirePresentRejectsNull<K>(rest: seq<Check<K>>, field: string)
    ensures FieldValidators.Validation([RequirePresent()] + rest, field, Null) == Returned(FieldResults.FailWith(field, []))
    ensures Validators.Testing([RequirePresent()] + rest, field, Null) == Returned(Results.Result(false, field, []))
  {
    Cons(RequirePresent<K>(), rest);
  }

  /** The integer/date `optional()` on a value: the rest of the chain decides. */
  lemma RequirePresentAdmitsValue<K>(rest: seq<Check<K>>, field: string, v: K)
    ensures FieldValidators.Validation([RequirePresent()] + rest, field, Present(v)) == FieldValidators.Validation(rest, field, Present(v))
    ensures Validators.Testing([RequirePresent()] + rest, field, Present(v)) == Validators.Testing(rest, field, Present(v))
  {
    PassingHeadIsNeutral(RequirePresent<K>(), rest, field, Present(v));
  }

  /** `StringValidator.optional()` never affects the outcome, null or not. */
  lemma AlwaysPassIsNeutral<K>(rest: seq<Check<K>>, field: string, param: Nullable<K>)
    ensures Validators.Testing([AlwaysPass()] + rest, field, param) == Validators.Testing(rest, field, param)
  {
    PassingHeadIsNeutral(AlwaysPass<K>(), rest, field, param);
  }
}
