# java-validations, modelled in Dafny

This project models the core of the `java-validations` library, a fluent
validator builder for Java values. A validator holds an ordered list of
checks. Each check is a predicate over a possibly-null value, a
`Terminate` policy (`FAILURE`, `SUCCESS` or `NONE`: whether a failing or a
passing check stops the run), an `ErrorOn` policy (`FAILURE` or `NONE`:
whether a failure reports the check's message) and a message.

- **The check chain** (`Chain`). A predicate answers `Pass`, `Fail` or
  `Crash`. `Crash` stands for the `NullPointerException` it throws when it
  dereferences null. `Chain.Eval` is the run as one recursive definition.
  `EvalCharacterised` proves it equal to an independent description: which
  checks are called, whether the run throws, whether it fails, and which
  messages it reports.
- **The two engines** (`FieldValidators`, `Validators`).
  `FieldValidator.validate` returns a `FieldResult`, and `Validator.test`
  returns a `Result`. Both are classes whose `vals` field `add` appends to
  in place. Their `for` loops with `break` are methods proved to return
  exactly the specification functions `Validation` and `Testing`. Lemmas
  about those functions state what the loop promises.
- **Results and aggregators** (`FieldResults`, `Results`,
  `ValidationResults`, `ReasonsRecord`, `Collect`, `Messages`). These cover
  the records and their factories, `Result.and`, `concat` and `check`, and
  `ValidationResult.of` and `Reasons.of`. `Collectors.toMap` appears in
  two forms: without a merge function it throws on a repeated key, and with
  the concatenating merge it does not. `getMessage` renders the text.
- **The helper builders.** Each helper family appends a fixed check table
  (`StringChecks`, `IntegerChecks`, `ListChecks`, `TemporalChecks`, and the
  boolean checks) to a seed built by `Seeds` (`nonNull`, `isNull` and the
  different `optional` seeds). The families build their validators in
  three ways, as the library does:
  - Copy builders (`StringFieldValidator`, `BooleanFieldValidator`,
    `ListFieldValidator`) return a fresh validator holding the receiver's
    checks plus one, and leave the receiver unchanged.
  - Mutating builders (`StringValidator`, `IntegerFieldValidator`,
    `IntegerValidator`, `ListValidator`) append to the receiver in place
    and return it, so two builds from one seed share a single list.
  - Date builders (`LocalDateFieldValidator`,
    `LocalDateTimeFieldValidator`) return a fresh validator holding only
    their own comparison. This drops whatever the receiver held.

Small scenario methods build a validator, run it on a value, and state the
exact result. Several of them show how the library behaves as written:

- `optional()` on a string or boolean validator rejects every non-null
  value.
- `optional()` on an integer or date validator rejects null with no
  reason.
- `StringValidator.optional().minSize(5)` throws on null.
- `moreThan` and `lessThan` on lists are inclusive.
- `notEmpty()` reports "must be empty".
- Chained date builders keep only the last comparison.

## Model

| member | source | states |
|---|---|---|
| Chain.Evaluated | src/main/java/io/github/veerakumarak/validations/FieldValidator.java:32-48 | the number of predicates a run calls: up to and including the first check that stops it (a failing `Terminate.FAILURE`, a passing `Terminate.SUCCESS`, or a throwing predicate), never more than the list holds, and no earlier check stops |
| Chain.Reported | src/main/java/io/github/veerakumarak/validations/FieldValidator.java:35-39 | the messages of the failing `ErrorOn.FAILURE` checks, in list order; never more messages than checks |
| Chain.EvalCharacterised | src/main/java/io/github/veerakumarak/validations/FieldValidator.java:29-48 | the loop's step-by-step rule equals the independent description: exactly the first `Evaluated` checks are called; the run throws iff one of them throws, is a failure iff one of them fails (reported or not), and reports the messages of those that fail with `ErrorOn.FAILURE`, in order |
| Chain.DescribedCons | src/main/java/io/github/veerakumarak/validations/FieldValidator.java:33-39 | the description of a run extended by one check in front: a throwing check throws, a failing one contributes its flag and its reported message before the rest, a passing one leaves the rest unchanged |
| Chain.ReasonsNeedFailures | src/main/java/io/github/veerakumarak/validations/FieldValidator.java:30-50 | a completed run reports at most one message per check, and a run with no failure reports nothing |
| Chain.NoFailureNothingReported | src/main/java/io/github/veerakumarak/validations/FieldValidator.java:35-39 | a list in which no check fails reports no message |
| Chain.EvalAppend | src/main/java/io/github/veerakumarak/validations/FieldValidator.java:32-48 | running `a + b`: if some check of `a` stops the run, `b` is never called; otherwise the run is `a`'s run followed by `b`'s, failure flags or-ed and reasons concatenated |
| Chain.LaterChecksIgnored | src/main/java/io/github/veerakumarak/validations/FieldValidator.java:40-46 | after a check that stops the run, replacing every later check changes nothing |
| Chain.ContinueRunsEveryCheck | src/main/java/io/github/veerakumarak/validations/FieldValidator.java:32-48 | `Terminate.NONE` never stops the loop: with only such checks (none throwing) every predicate is called and the outcome is the failure flag and the reported messages of the whole list |
| Chain.EvalOne | src/main/java/io/github/veerakumarak/validations/FieldValidator.java:32-48 | a single non-stopping check fails the run iff it fails, reporting its own message when marked `ErrorOn.FAILURE` |
| Chain.EvalTwo | src/main/java/io/github/veerakumarak/validations/FieldValidator.java:32-48 | two non-stopping checks: the run fails iff either fails, and the first one's message precedes the second's |
| Collect.ToMapSpec | src/main/java/io/github/veerakumarak/validations/Result.java:31-35 | `toMap` with no merge function throws `IllegalStateException` exactly when two entries share a key, naming such a key; otherwise its keys are the entries' keys and each maps to its entry's reasons |
| Collect.ToMapMergingSpec | src/main/java/io/github/veerakumarak/validations/ValidationResult.java:24-36 | `toMap` with the concatenating merge has exactly the entries' keys, and each key holds every list filed under it in stream order, earlier first, never overwritten |
| Collect.GatherAbsent | src/main/java/io/github/veerakumarak/validations/ValidationResult.java:24-36 | a key no entry carries gathers no reasons |
| Collect.ToMapAgreesWithMerging | src/main/java/io/github/veerakumarak/validations/Reasons.java:21-25 | when no key repeats, the collector without a merge function builds the same map as the merging one |
| FieldResults.Ok | src/main/java/io/github/veerakumarak/validations/FieldResult.java:7-9 | valid, no reasons, the given field |
| FieldResults.Fail | src/main/java/io/github/veerakumarak/validations/FieldResult.java:11-13 | invalid, reasons exactly `[message]`, the given field |
| FieldResults.FailWith | src/main/java/io/github/veerakumarak/validations/FieldResult.java:15-17 | invalid, the given reasons kept verbatim (even empty), the given field |
| FieldResults.FailingEntriesSpec | src/main/java/io/github/veerakumarak/validations/ValidationResult.java:24-28 | the filtered stream of invalid results has as keys exactly their fields, repeats a key iff two invalid results share a field, and lists under each field that field's reasons in list order |
| FieldResults.InvalidResultListed | src/main/java/io/github/veerakumarak/validations/Reasons.java:21-25 | every invalid result appears in the filtered stream with its own field and reasons |
| Results.Ok | src/main/java/io/github/veerakumarak/validations/Result.java:11-13 | `(true, field, [])` |
| Results.Fail | src/main/java/io/github/veerakumarak/validations/Result.java:15-17 | `(false, field, [message])` |
| Results.And | src/main/java/io/github/veerakumarak/validations/Result.java:19-25 | valid iff both are, `a`'s field, and reasons `a`'s followed by `b`'s, lengths adding up |
| Results.AndOk | src/main/java/io/github/veerakumarak/validations/Result.java:19-25 | joining with `ok` keeps validity, field and reasons |
| Results.AndAssociative | src/main/java/io/github/veerakumarak/validations/Result.java:19-25 | `and` groups either way |
| Results.Concat | src/main/java/io/github/veerakumarak/validations/Result.java:27-29 | every element of `first` then every element of `second`, in order |
| Results.CheckSpec | src/main/java/io/github/veerakumarak/validations/Result.java:31-38 | `check(list)` (and the varargs form, the same sequence) throws iff two invalid results share a field; otherwise maps exactly the invalid fields, each to its result's reasons, and valid results contribute nothing |
| Results.CheckBoth | src/main/java/io/github/veerakumarak/validations/Result.java:39-41 | `check(first, second)` is `check` of the concatenation: throws iff an invalid field repeats across both lists, else its keys are the invalid fields of either |
| Results.InvalidFieldsConcat | src/main/java/io/github/veerakumarak/validations/Result.java:27-29 | the invalid fields of a concatenation are those of its two parts |
| ValidationResults.Of | src/main/java/io/github/veerakumarak/validations/ValidationResult.java:15-18 | `of(map)` keeps the map and is valid iff the map is empty |
| ValidationResults.OfList | src/main/java/io/github/veerakumarak/validations/ValidationResult.java:24-36 | `of(list)` has as keys exactly the fields of invalid results, each holding the reasons of every invalid result for it in list order, and is valid iff every result is |
| ValidationResults.OfResult | src/main/java/io/github/veerakumarak/validations/ValidationResult.java:20-22 | `of(r)` is `of([r])`: valid iff `r` is; otherwise the single entry `r.field -> r.reasons`, kept even when the reasons are empty |
| ValidationResults.SameFieldConcatenates | src/main/java/io/github/veerakumarak/validations/ValidationResult.java:29-34 | two failures for one field are concatenated, earlier first, and the aggregate is invalid |
| ValidationResults.ValidResultsContributeNothing | src/main/java/io/github/veerakumarak/validations/ValidationResult.java:24-28 | a valid result adds no key; only the invalid field is listed |
| ValidationResults.SilentFailureStillInvalid | src/main/java/io/github/veerakumarak/validations/ValidationResult.java:15-28 | an invalid result with no reasons still adds its field, so the aggregate is invalid |
| ValidationResults.ValidationResult.GetMessage | src/main/java/io/github/veerakumarak/validations/ValidationResult.java:54-68 | `"No failures detected."` exactly when the map is empty; a map with one entry renders as `{`, that entry's `  "field": "r1,r2"` line and `}`, on three lines |
| Messages.Render | src/main/java/io/github/veerakumarak/validations/ValidationResult.java:54-68 | the message text: `"No failures detected."` iff the map is empty; with one key, `{`, that key's entry line and `}` joined by newlines |
| Messages.RenderSingle | src/main/java/io/github/veerakumarak/validations/ValidationResult.java:59-67 | one entry renders as `{\n  "field": "r1,r2"\n}`: reasons joined by a bare comma |
| Messages.JoinTwo | src/main/java/io/github/veerakumarak/validations/ValidationResult.java:62 | two reasons are joined as `a,b`, with no space |
| Messages.Lines | src/main/java/io/github/veerakumarak/validations/ValidationResult.java:59-65 | one rendered line per key, in iteration order, each the `  "field": "reasons"` form |
| Messages.Join | src/main/java/io/github/veerakumarak/validations/ValidationResult.java:62 | `String.join` of no part is empty and of one part is that part |
| Messages.JoinSnoc | src/main/java/io/github/veerakumarak/validations/ValidationResult.java:62 | for every non-empty list, joining one more part appends the separator and that part: the general case of `String.join` |
| Messages.IntToString | src/main/java/io/github/veerakumarak/validations/helpers/IntegerFieldValidator.java:31-49 | `%s` of an int: a leading `-` iff negative, followed by the decimal digits of its magnitude |
| Messages.IntRoundTrip | src/main/java/io/github/veerakumarak/validations/helpers/IntegerFieldValidator.java:31-49 | reading the rendering back as a signed decimal gives the int, for every int; `-0` is never produced |
| Messages.NatToString | src/main/java/io/github/veerakumarak/validations/helpers/IntegerFieldValidator.java:31-49 | the decimal digits of a non-negative int: non-empty, digits only, no leading zero |
| Messages.NatRoundTrip | src/main/java/io/github/veerakumarak/validations/helpers/IntegerFieldValidator.java:31-49 | reading the rendered digits back as a decimal number gives the number, for every non-negative int |
| Messages.NatToStringInjective | src/main/java/io/github/veerakumarak/validations/helpers/IntegerFieldValidator.java:31-49 | two numbers with the same rendering are equal, so each bound message names its own bound |
| Messages.BoolToString | src/main/java/io/github/veerakumarak/validations/helpers/BooleanFieldValidator.java:43-49 | `%s` of a boolean is `true` for true and `false` for false |
| ReasonsRecord.Reasons.IsValid | src/main/java/io/github/veerakumarak/validations/Reasons.java:27-29 | valid iff the map is empty |
| ReasonsRecord.Reasons.GetMessage | src/main/java/io/github/veerakumarak/validations/Reasons.java:43-57 | `"No failures detected."` exactly when the record is valid; a map with one entry renders as `{`, that entry's `  "field": "r1,r2"` line and `}`, on three lines |
| ReasonsRecord.OfList | src/main/java/io/github/veerakumarak/validations/Reasons.java:21-25 | throws `IllegalStateException` iff two invalid results share a field; otherwise maps exactly the invalid fields, each to its result's reasons |
| ReasonsRecord.OfResult | src/main/java/io/github/veerakumarak/validations/Reasons.java:17-19 | `of(r)` never throws; valid iff `r` is, and otherwise the single entry `r.field -> r.reasons` |
| ReasonsRecord.AgreesWithValidationResult | src/main/java/io/github/veerakumarak/validations/Reasons.java:21-25 | whenever `Reasons.of(list)` completes it holds the same map, and the same validity, as `ValidationResult.of(list)` |
| ReasonsRecord.SameFieldThrows | src/main/java/io/github/veerakumarak/validations/Reasons.java:24 | two failures of one field throw on that key, where `ValidationResult` concatenates them |
| FieldValidators.Validation | src/main/java/io/github/veerakumarak/validations/FieldValidator.java:28-51 | `validate` as a function: throws iff a called predicate throws; otherwise invalid iff some called check failed (reported or not), the messages of the called reporting failures in order, the field unchanged, and at most one reason per check |
| FieldValidators.FieldValidator.constructor | src/main/java/io/github/veerakumarak/validations/FieldValidator.java:22-25 | a new validator holds exactly the one given check |
| FieldValidators.FieldValidator.Extend | src/main/java/io/github/veerakumarak/validations/helpers/StringFieldValidator.java:19-21 | the assumed copy constructor: the other validator's checks followed by the new one, the other left unchanged |
| FieldValidators.FieldValidator.Add | src/main/java/io/github/veerakumarak/validations/FieldValidator.java:17-20 | appends the check in place and returns the receiver itself |
| FieldValidators.FieldValidator.Validate | src/main/java/io/github/veerakumarak/validations/FieldValidator.java:28-51 | the loop (with `break`) returns exactly `Validation` of the current checks |
| FieldValidators.ValidMeansNoReasons | src/main/java/io/github/veerakumarak/validations/FieldValidator.java:50 | a valid result has no reasons, and every result carries the input field |
| FieldValidators.SilentFailure | src/main/java/io/github/veerakumarak/validations/FieldValidator.java:30-50 | a failing stopping check marked `ErrorOn.NONE` gives `fail(field, [])`: invalid with no reason |
| FieldValidators.StopIgnoresTail | src/main/java/io/github/veerakumarak/validations/FieldValidator.java:40-46 | checks after a stopping check are never called |
| FieldValidators.ValidationAppend | src/main/java/io/github/veerakumarak/validations/FieldValidator.java:32-50 | validating `a + b` when nothing in `a` stops: invalid iff either part is, `a`'s reasons then `b`'s |
| FieldValidators.SingleCheck | src/main/java/io/github/veerakumarak/validations/FieldValidator.java:32-50 | a lone non-stopping reporting check: `ok` iff it passes, else `fail(field, message)` |
| FieldValidators.AfterAccepting | src/main/java/io/github/veerakumarak/validations/FieldValidator.java:32-50 | after checks that accept the value, one more non-stopping reporting check decides as if it were alone |
| FieldValidators.OppositeChecks | src/main/java/io/github/veerakumarak/validations/FieldValidator.java:32-50 | two reporting checks that decide a value oppositely, each added after checks that accept it: exactly one validator is `ok`, the other is `fail(field, its message)` |
| Validators.Testing | src/main/java/io/github/veerakumarak/validations/Validator.java:28-58 | `test` as a function: the same run as `validate`, giving `new Result(false, field, reasons)` on any failure and `Result.ok(field)` otherwise |
| Validators.Validator.constructor | src/main/java/io/github/veerakumarak/validations/Validator.java:22-25 | a new validator holds exactly the one given check |
| Validators.Validator.Add | src/main/java/io/github/veerakumarak/validations/Validator.java:17-20 | appends the check in place and returns the receiver itself |
| Validators.Validator.Test | src/main/java/io/github/veerakumarak/validations/Validator.java:28-58 | the loop returns exactly `Testing` of the current checks |
| Validators.TestAgreesWithValidate | src/main/java/io/github/veerakumarak/validations/Validator.java:28-58 | `test` and `validate` on the same checks throw together and otherwise agree on validity, field and reasons |
| Validators.SilentFailure | src/main/java/io/github/veerakumarak/validations/Validator.java:51-52 | a silent stopping failure gives `Result(false, field, [])` |
| Validators.NoFailureIsOk | src/main/java/io/github/veerakumarak/validations/Validator.java:53-55 | a valid `test` result is exactly `Result.ok(field)` |
| Validators.SingleCheck | src/main/java/io/github/veerakumarak/validations/Validator.java:32-58 | a lone non-stopping reporting check: `Result.ok` iff it passes, else `Result.fail(field, message)` |
| Validators.OppositeChecks | src/main/java/io/github/veerakumarak/validations/Validator.java:32-58 | the same for `test`: exactly one of the two is `Result.ok`, the other `Result.fail(field, its message)` |
| Seeds.PassingHeadIsNeutral | src/main/java/io/github/veerakumarak/validations/FieldValidator.java:43-46 | a first check that passes without stopping leaves the outcome to the rest |
| Seeds.NonNullRejectsNull | src/main/java/io/github/veerakumarak/validations/helpers/StringFieldValidator.java:23-25 | `nonNull()` on null: invalid with exactly its message, under `validate` and `test`, no later check called |
| Seeds.NonNullAdmitsValue | src/main/java/io/github/veerakumarak/validations/helpers/StringFieldValidator.java:23-25 | `nonNull()` on a value: the outcome is that of the following checks |
| Seeds.IsNullRejectsValue | src/main/java/io/github/veerakumarak/validations/helpers/StringFieldValidator.java:27-29 | `isNull()` on a value: invalid with exactly its message, no later check called |
| Seeds.IsNullAdmitsNull | src/main/java/io/github/veerakumarak/validations/helpers/StringFieldValidator.java:27-29 | `isNull()` on null: the outcome is that of the following checks |
| Seeds.SkipIfNullAcceptsNull | src/main/java/io/github/veerakumarak/validations/helpers/StringFieldValidator.java:31-33 | string/boolean `optional()` on null: `ok`, whatever follows |
| Seeds.SkipIfNullRejectsValue | src/main/java/io/github/veerakumarak/validations/helpers/StringFieldValidator.java:31-33 | string/boolean `optional()` on a value: invalid whatever follows, with the following checks' reasons (possibly none) |
| Seeds.RequirePresentRejectsNull | src/main/java/io/github/veerakumarak/validations/helpers/IntegerFieldValidator.java:27-29 | integer/date `optional()` on null: invalid with no reason, no later check called |
| Seeds.RequirePresentAdmitsValue | src/main/java/io/github/veerakumarak/validations/helpers/IntegerFieldValidator.java:27-29 | integer/date `optional()` on a value: the outcome is that of the following checks |
| Seeds.AlwaysPassIsNeutral | src/main/java/io/github/veerakumarak/validations/helpers/StringValidator.java:27-29 | `StringValidator.optional()` changes no outcome, null or not |
| StringChecks.LengthBoundsInclusive | src/main/java/io/github/veerakumarak/validations/helpers/StringFieldValidator.java:35-41 | `minLength(n)` fails iff fewer than n characters, `maxLength(n)` iff more: both inclusive |
| StringChecks.EqualsComplementary | src/main/java/io/github/veerakumarak/validations/helpers/StringFieldValidator.java:51-57 | `equals(v)` and `notEquals(v)` decide oppositely on every string |
| StringChecks.EmptyComplementary | src/main/java/io/github/veerakumarak/validations/helpers/StringFieldValidator.java:59-65 | `isEmpty()` and `notEmpty()` decide oppositely on every string |
| StringChecks.ContainsInfix | src/main/java/io/github/veerakumarak/validations/helpers/StringFieldValidator.java:47-49 | `contains(sub)` passes on any string with `sub` inside it |
| StringChecks.ContainsNeedsRoom | src/main/java/io/github/veerakumarak/validations/helpers/StringFieldValidator.java:47-49 | `contains(sub)` fails on any string shorter than `sub` |
| StringChecks.OnlyRegexAdmitsNull | src/main/java/io/github/veerakumarak/validations/helpers/StringFieldValidator.java:35-69 | the regex check passes on null; every other string check throws |
| StringFieldValidators.Start | src/main/java/io/github/veerakumarak/validations/helpers/StringFieldValidator.java:15-17 | a fresh validator holding the one check |
| StringFieldValidators.Extend | src/main/java/io/github/veerakumarak/validations/helpers/StringFieldValidator.java:19-21 | a fresh validator with the receiver's checks plus one; the receiver keeps its own |
| StringFieldValidators.NonNull | src/main/java/io/github/veerakumarak/validations/helpers/StringFieldValidator.java:23-25 | a fresh validator holding `nonNull` with message `should not be null` |
| StringFieldValidators.IsNull | src/main/java/io/github/veerakumarak/validations/helpers/StringFieldValidator.java:27-29 | a fresh validator holding `isNull` with message `should be null` |
| StringFieldValidators.Optional | src/main/java/io/github/veerakumarak/validations/helpers/StringFieldValidator.java:31-33 | a fresh validator holding the `isNull`/`SUCCESS`/`NONE` seed |
| StringFieldValidators.MinLength | src/main/java/io/github/veerakumarak/validations/helpers/StringFieldValidator.java:35-37 | a new validator: the receiver's checks plus `minLength(size)` |
| StringFieldValidators.MaxLength | src/main/java/io/github/veerakumarak/validations/helpers/StringFieldValidator.java:39-41 | a new validator: the receiver's checks plus `maxLength(size)` |
| StringFieldValidators.LengthBetween | src/main/java/io/github/veerakumarak/validations/helpers/StringFieldValidator.java:43-45 | a new validator: the receiver's checks plus `minLength(a)` then `maxLength(b)` |
| StringFieldValidators.Contains | src/main/java/io/github/veerakumarak/validations/helpers/StringFieldValidator.java:47-49 | a new validator: the receiver's checks plus `contains(sub)` |
| StringFieldValidators.Equals | src/main/java/io/github/veerakumarak/validations/helpers/StringFieldValidator.java:51-53 | a new validator: the receiver's checks plus `equals(value)` |
| StringFieldValidators.NotEquals | src/main/java/io/github/veerakumarak/validations/helpers/StringFieldValidator.java:55-57 | a new validator: the receiver's checks plus `notEquals(value)` |
| StringFieldValidators.IsEmpty | src/main/java/io/github/veerakumarak/validations/helpers/StringFieldValidator.java:59-61 | a new validator: the receiver's checks plus `isEmpty()` |
| StringFieldValidators.NotEmpty | src/main/java/io/github/veerakumarak/validations/helpers/StringFieldValidator.java:63-65 | a new validator: the receiver's checks plus `notEmpty()` |
| StringFieldValidators.MatchesRegex | src/main/java/io/github/veerakumarak/validations/helpers/StringFieldValidator.java:67-69 | a new validator: the receiver's checks plus `matchesRegex(regex)` |
| StringFieldValidators.LengthBetweenOutcome | src/main/java/io/github/veerakumarak/validations/helpers/StringFieldValidator.java:35-45 | after checks that let `s` through, `lengthBetween(a, b)` makes the result invalid iff those did or `|s|` is outside `[a, b]`, bound messages after earlier reasons, lower first |
| StringFieldValidators.EmptyUsername | src/main/java/io/github/veerakumarak/validations/exmaple/ChainingExample.java:21-24 | `nonNull().minLength(5).maxLength(20)` on `""` is invalid with exactly `["should have at least 5 characters"]` |
| StringFieldValidators.EmptyUsernameOutcome | src/main/java/io/github/veerakumarak/validations/helpers/StringFieldValidator.java:23-41 | the same outcome, stated on the check list |
| StringFieldValidators.OptionalMatching | src/main/java/io/github/veerakumarak/validations/exmaple/OptionalExample.java:15-23 | `optional().matchesRegex(r)` on a value is invalid whether or not it matches; only a non-match adds the regex message |
| StringFieldValidators.EqualsOrNotEquals | src/main/java/io/github/veerakumarak/validations/helpers/StringFieldValidator.java:51-57 | after checks that accept `s`, `equals(v)` is `ok` iff `s == v` and `notEquals(v)` iff not; the rejecting one fails with exactly its own message |
| StringFieldValidators.EmptyOrNotEmpty | src/main/java/io/github/veerakumarak/validations/helpers/StringFieldValidator.java:59-65 | after checks that accept `s`, `isEmpty()` is `ok` iff `s` is empty and `notEmpty()` iff not; the rejecting one fails with `should be empty` or `should not be empty` |
| StringValidators.Start | src/main/java/io/github/veerakumarak/validations/helpers/StringValidator.java:15-17 | a fresh validator holding the one check |
| StringValidators.Append | src/main/java/io/github/veerakumarak/validations/helpers/StringValidator.java:31-65 | `add` through the receiver: appends in place and returns the receiver |
| StringValidators.NonNull | src/main/java/io/github/veerakumarak/validations/helpers/StringValidator.java:19-21 | a fresh validator holding `nonNull` with `should not be null` |
| StringValidators.IsNull | src/main/java/io/github/veerakumarak/validations/helpers/StringValidator.java:23-25 | a fresh validator holding `isNull` with `should be null` |
| StringValidators.Optional | src/main/java/io/github/veerakumarak/validations/helpers/StringValidator.java:27-29 | a fresh validator holding the always-passing silent check |
| StringValidators.MinSize | src/main/java/io/github/veerakumarak/validations/helpers/StringValidator.java:31-33 | the receiver, with `minSize(size)` appended in place |
| StringValidators.MaxSize | src/main/java/io/github/veerakumarak/validations/helpers/StringValidator.java:35-37 | the receiver, with `maxSize(size)` appended in place |
| StringValidators.Between | src/main/java/io/github/veerakumarak/validations/helpers/StringValidator.java:39-41 | the receiver, with `minSize(a)` then `maxSize(b)` appended in place |
| StringValidators.Contains | src/main/java/io/github/veerakumarak/validations/helpers/StringValidator.java:43-45 | the receiver, with `contains(sub)` appended in place |
| StringValidators.Equals | src/main/java/io/github/veerakumarak/validations/helpers/StringValidator.java:47-49 | the receiver, with `equals(value)` appended in place |
| StringValidators.NotEquals | src/main/java/io/github/veerakumarak/validations/helpers/StringValidator.java:51-53 | the receiver, with `notEquals(value)` appended in place |
| StringValidators.IsEmpty | src/main/java/io/github/veerakumarak/validations/helpers/StringValidator.java:55-57 | the receiver, with `isEmpty()` appended in place |
| StringValidators.NotEmpty | src/main/java/io/github/veerakumarak/validations/helpers/StringValidator.java:59-61 | the receiver, with `notEmpty()` appended in place |
| StringValidators.Regex | src/main/java/io/github/veerakumarak/validations/helpers/StringValidator.java:63-65 | the receiver, with the regex check appended in place |
| StringValidators.SharedSeed | src/main/java/io/github/veerakumarak/validations/helpers/StringValidator.java:31-37 | two builder calls on one seed return the same object, and testing `"abcd"` through the first runs both added checks: `Result(false, "name", [min message, max message])` |
| StringValidators.SharedSeedOutcome | src/main/java/io/github/veerakumarak/validations/helpers/StringValidator.java:19-37 | the same outcome, stated on the shared check list |
| StringValidators.OptionalThenMinSizeOnNull | src/main/java/io/github/veerakumarak/validations/helpers/StringValidator.java:27-33 | `optional().minSize(5)` on null throws: the seed does not stop the run |
| StringValidators.OptionalRegexOnNull | src/main/java/io/github/veerakumarak/validations/helpers/StringValidator.java:27-65 | `optional().regex(r)` on null is `Result.ok` |
| IntegerChecks.BoundsStrict | src/main/java/io/github/veerakumarak/validations/helpers/IntegerFieldValidator.java:31-37 | `lowerThan(m)` fails iff the value is at least m, `greaterThan(m)` iff at most m: both strict |
| IntegerChecks.EqualsComplementary | src/main/java/io/github/veerakumarak/validations/helpers/IntegerFieldValidator.java:43-49 | exactly one of `equals(x)` and `notEquals(x)` fails on any value |
| IntegerChecks.ThrowOnNull | src/main/java/io/github/veerakumarak/validations/helpers/IntegerFieldValidator.java:31-49 | every integer comparison throws on null (unboxing) |
| IntegerChecks.BoundMessages | src/main/java/io/github/veerakumarak/validations/helpers/IntegerFieldValidator.java:35-37 | the bound messages spell out the bound, with the source's spelling: `must be greather than 18.` and `must be lower than 65.` |
| IntegerFieldValidators.Start | src/main/java/io/github/veerakumarak/validations/helpers/IntegerFieldValidator.java:15-17 | a fresh validator holding the one check |
| IntegerFieldValidators.Append | src/main/java/io/github/veerakumarak/validations/helpers/IntegerFieldValidator.java:31-49 | `add` through the receiver: appends in place and returns the receiver |
| IntegerFieldValidators.NonNull | src/main/java/io/github/veerakumarak/validations/helpers/IntegerFieldValidator.java:19-21 | a fresh validator holding `nonNull` with `integer value must be non null` |
| IntegerFieldValidators.IsNull | src/main/java/io/github/veerakumarak/validations/helpers/IntegerFieldValidator.java:23-25 | a fresh validator holding `isNull` with `must be null` |
| IntegerFieldValidators.Optional | src/main/java/io/github/veerakumarak/validations/helpers/IntegerFieldValidator.java:27-29 | a fresh validator holding the `nonNull`/`FAILURE`/`NONE` seed |
| IntegerFieldValidators.LowerThan | src/main/java/io/github/veerakumarak/validations/helpers/IntegerFieldValidator.java:31-33 | the receiver, with `lowerThan(max)` appended in place |
| IntegerFieldValidators.GreaterThan | src/main/java/io/github/veerakumarak/validations/helpers/IntegerFieldValidator.java:35-37 | the receiver, with `greaterThan(min)` appended in place |
| IntegerFieldValidators.Between | src/main/java/io/github/veerakumarak/validations/helpers/IntegerFieldValidator.java:39-41 | the receiver, with `greaterThan(a)` then `lowerThan(b)` appended in place |
| IntegerFieldValidators.Equals | src/main/java/io/github/veerakumarak/validations/helpers/IntegerFieldValidator.java:43-45 | the receiver, with `equals(value)` appended in place |
| IntegerFieldValidators.NotEquals | src/main/java/io/github/veerakumarak/validations/helpers/IntegerFieldValidator.java:47-49 | the receiver, with `notEquals(value)` appended in place |
| IntegerFieldValidators.BetweenOutcome | src/main/java/io/github/veerakumarak/validations/helpers/IntegerFieldValidator.java:31-41 | after checks that let `x` through, `between(a, b)` makes the result invalid iff those did or `x` is outside the open interval `(a, b)`, lower-bound message first |
| IntegerFieldValidators.AgeOnLowerBound | src/main/java/io/github/veerakumarak/validations/helpers/IntegerFieldValidator.java:19-41 | `v = nonNull(); v.between(18, 65)` then `v.validate("age", 18)`: the bounds are on `v` itself, and 18 fails with `must be greather than 18.` |
| IntegerFieldValidators.AgeOnLowerBoundOutcome | src/main/java/io/github/veerakumarak/validations/helpers/IntegerFieldValidator.java:19-41 | the same outcome, stated on the check list |
| IntegerFieldValidators.OptionalOnNull | src/main/java/io/github/veerakumarak/validations/helpers/IntegerFieldValidator.java:27-29 | `optional().between(a, b)` on null is invalid with no reason; the throwing bounds are never called |
| IntegerFieldValidators.EqualsOrNotEquals | src/main/java/io/github/veerakumarak/validations/helpers/IntegerFieldValidator.java:43-49 | after checks that accept `x`, `equals(v)` is `ok` iff `x == v` and `notEquals(v)` iff not; the rejecting one fails with exactly its own message |
| IntegerValidators.Start | src/main/java/io/github/veerakumarak/validations/helpers/IntegerValidator.java:15-17 | a fresh validator holding the one check |
| IntegerValidators.Append | src/main/java/io/github/veerakumarak/validations/helpers/IntegerValidator.java:31-49 | `add` through the receiver: appends in place and returns the receiver |
| IntegerValidators.NonNull | src/main/java/io/github/veerakumarak/validations/helpers/IntegerValidator.java:19-21 | a fresh validator holding `nonNull` with `integer value must be non null` |
| IntegerValidators.IsNull | src/main/java/io/github/veerakumarak/validations/helpers/IntegerValidator.java:23-25 | a fresh validator holding `isNull` with `must be null` |
| IntegerValidators.Optional | src/main/java/io/github/veerakumarak/validations/helpers/IntegerValidator.java:27-29 | a fresh validator holding the `nonNull`/`FAILURE`/`NONE` seed |
| IntegerValidators.LowerThan | src/main/java/io/github/veerakumarak/validations/helpers/IntegerValidator.java:31-33 | the receiver, with `lowerThan(max)` appended in place |
| IntegerValidators.GreaterThan | src/main/java/io/github/veerakumarak/validations/helpers/IntegerValidator.java:35-37 | the receiver, with `greaterThan(min)` appended in place |
| IntegerValidators.Between | src/main/java/io/github/veerakumarak/validations/helpers/IntegerValidator.java:39-41 | the receiver, with `greaterThan(a)` then `lowerThan(b)` appended in place |
| IntegerValidators.Equals | src/main/java/io/github/veerakumarak/validations/helpers/IntegerValidator.java:43-45 | the receiver, with `equals(value)` appended in place |
| IntegerValidators.NotEquals | src/main/java/io/github/veerakumarak/validations/helpers/IntegerValidator.java:47-49 | the receiver, with `notEquals(value)` appended in place |
| IntegerValidators.BetweenOutcome | src/main/java/io/github/veerakumarak/validations/helpers/IntegerValidator.java:31-41 | under `test`, `between(a, b)` after checks that let `x` through: invalid iff those did or `x` is outside `(a, b)` |
| IntegerValidators.OptionalOnNull | src/main/java/io/github/veerakumarak/validations/helpers/IntegerValidator.java:27-29 | `optional()` plus bounds on null gives `Result(false, field, [])` |
| IntegerValidators.NonNullOnNull | src/main/java/io/github/veerakumarak/validations/helpers/IntegerValidator.java:19-21 | `nonNull()` plus bounds on null gives `Result.fail(field, "integer value must be non null")` |
| BooleanFieldValidators.Start | src/main/java/io/github/veerakumarak/validations/helpers/BooleanFieldValidator.java:15-17 | a fresh validator holding the one check |
| BooleanFieldValidators.Extend | src/main/java/io/github/veerakumarak/validations/helpers/BooleanFieldValidator.java:19-21 | a fresh validator with the receiver's checks plus one; the receiver keeps its own |
| BooleanFieldValidators.NonNull | src/main/java/io/github/veerakumarak/validations/helpers/BooleanFieldValidator.java:23-25 | a fresh validator holding `nonNull` with `should not be null` |
| BooleanFieldValidators.IsNull | src/main/java/io/github/veerakumarak/validations/helpers/BooleanFieldValidator.java:27-29 | a fresh validator holding `isNull` with `should be null` |
| BooleanFieldValidators.Optional | src/main/java/io/github/veerakumarak/validations/helpers/BooleanFieldValidator.java:31-33 | a fresh validator holding the `isNull`/`SUCCESS`/`NONE` seed |
| BooleanFieldValidators.IsTrue | src/main/java/io/github/veerakumarak/validations/helpers/BooleanFieldValidator.java:35-37 | a new validator: the receiver's checks plus `isTrue()` |
| BooleanFieldValidators.IsFalse | src/main/java/io/github/veerakumarak/validations/helpers/BooleanFieldValidator.java:39-41 | a new validator: the receiver's checks plus `isFalse()` |
| BooleanFieldValidators.Equals | src/main/java/io/github/veerakumarak/validations/helpers/BooleanFieldValidator.java:43-45 | a new validator: the receiver's checks plus `equals(value)` |
| BooleanFieldValidators.NotEquals | src/main/java/io/github/veerakumarak/validations/helpers/BooleanFieldValidator.java:47-49 | a new validator: the receiver's checks plus `notEquals(value)` |
| BooleanFieldValidators.TrueFalseComplementary | src/main/java/io/github/veerakumarak/validations/helpers/BooleanFieldValidator.java:35-41 | `isTrue` fails iff the value is false, `isFalse` iff it is true: exactly one fails |
| BooleanFieldValidators.EqualsComplementary | src/main/java/io/github/veerakumarak/validations/helpers/BooleanFieldValidator.java:43-49 | `equals(b)` and `notEquals(b)` decide oppositely and never throw on a value; `equals(true)` decides like `isTrue` |
| BooleanFieldValidators.OptionalIsTrue | src/main/java/io/github/veerakumarak/validations/helpers/BooleanFieldValidator.java:31-37 | `optional().isTrue()` on a value is invalid whatever it is; only `false` adds `should be true` |
| BooleanFieldValidators.OptionalIsTrueOnNull | src/main/java/io/github/veerakumarak/validations/helpers/BooleanFieldValidator.java:31-37 | `optional().isTrue()` on null is `ok`: the unboxing check is never called |
| BooleanFieldValidators.TrueOrFalse | src/main/java/io/github/veerakumarak/validations/helpers/BooleanFieldValidator.java:35-41 | after checks that accept `b`, `isTrue()` is `ok` iff `b` and `isFalse()` iff not; the rejecting one fails with `should be true` or `should be false` |
| ListChecks.SizeBoundsInclusive | src/main/java/io/github/veerakumarak/validations/helpers/ListFieldValidator.java:33-39 | `moreThan(n)` fails iff fewer than n elements, `lessThan(n)` iff more: both inclusive despite the names |
| ListChecks.ContainsComplementary | src/main/java/io/github/veerakumarak/validations/helpers/ListFieldValidator.java:45-55 | `contains(x)` and `notContains(x)` decide oppositely yet carry the same message |
| ListChecks.EmptyComplementary | src/main/java/io/github/veerakumarak/validations/helpers/ListFieldValidator.java:65-71 | `isEmpty()` and `notEmpty()` decide oppositely yet both report `must be empty` |
| ListChecks.EqualsComplementary | src/main/java/io/github/veerakumarak/validations/helpers/ListFieldValidator.java:57-63 | `equals(xs)` and `notEquals(xs)` decide oppositely |
| ListChecks.ContainsAllIsInclusion | src/main/java/io/github/veerakumarak/validations/helpers/ListFieldValidator.java:49-51 | `containsAll(xs)` passes iff the elements of `xs` are among the list's, i.e. iff `contains` passes for each element of `xs` |
| ListChecks.ContainsAllSameElements | src/main/java/io/github/veerakumarak/validations/helpers/ListFieldValidator.java:49-51 | lists with the same elements, whatever order or repetitions, are judged alike by `containsAll` |
| ListChecks.EqualsImpliesContainsAll | src/main/java/io/github/veerakumarak/validations/helpers/ListFieldValidator.java:49-59 | a list passing `equals(xs)` passes `containsAll(xs)` |
| ListChecks.ThrowOnNull | src/main/java/io/github/veerakumarak/validations/helpers/ListFieldValidator.java:33-71 | every list check throws on null |
| ListFieldValidators.Start | src/main/java/io/github/veerakumarak/validations/helpers/ListFieldValidator.java:17-19 | a fresh validator holding the one check |
| ListFieldValidators.Extend | src/main/java/io/github/veerakumarak/validations/helpers/ListFieldValidator.java:21-23 | a fresh validator with the receiver's checks plus one; the receiver keeps its own |
| ListFieldValidators.NonNull | src/main/java/io/github/veerakumarak/validations/helpers/ListFieldValidator.java:25-27 | a fresh validator holding `nonNull` with `list must be non null` |
| ListFieldValidators.IsNull | src/main/java/io/github/veerakumarak/validations/helpers/ListFieldValidator.java:29-31 | a fresh validator holding `isNull` with `list must be null` |
| ListFieldValidators.MoreThan | src/main/java/io/github/veerakumarak/validations/helpers/ListFieldValidator.java:33-35 | a new validator: the receiver's checks plus `moreThan(size)` |
| ListFieldValidators.LessThan | src/main/java/io/github/veerakumarak/validations/helpers/ListFieldValidator.java:37-39 | a new validator: the receiver's checks plus `lessThan(size)` |
| ListFieldValidators.Between | src/main/java/io/github/veerakumarak/validations/helpers/ListFieldValidator.java:41-43 | a new validator: the receiver's checks plus `moreThan(a)` then `lessThan(b)` |
| ListFieldValidators.Contains | src/main/java/io/github/veerakumarak/validations/helpers/ListFieldValidator.java:45-47 | a new validator: the receiver's checks plus `contains(item)` |
| ListFieldValidators.ContainsAll | src/main/java/io/github/veerakumarak/validations/helpers/ListFieldValidator.java:49-51 | a new validator: the receiver's checks plus `containsAll(list)` |
| ListFieldValidators.NotContains | src/main/java/io/github/veerakumarak/validations/helpers/ListFieldValidator.java:53-55 | a new validator: the receiver's checks plus `notContains(item)` |
| ListFieldValidators.Equals | src/main/java/io/github/veerakumarak/validations/helpers/ListFieldValidator.java:57-59 | a new validator: the receiver's checks plus `equals(list)` |
| ListFieldValidators.NotEquals | src/main/java/io/github/veerakumarak/validations/helpers/ListFieldValidator.java:61-63 | a new validator: the receiver's checks plus `notEquals(list)` |
| ListFieldValidators.IsEmpty | src/main/java/io/github/veerakumarak/validations/helpers/ListFieldValidator.java:65-67 | a new validator: the receiver's checks plus `isEmpty()` |
| ListFieldValidators.NotEmpty | src/main/java/io/github/veerakumarak/validations/helpers/ListFieldValidator.java:69-71 | a new validator: the receiver's checks plus `notEmpty()` |
| ListFieldValidators.BetweenOutcome | src/main/java/io/github/veerakumarak/validations/helpers/ListFieldValidator.java:33-43 | after checks that let `l` through, `between(a, b)` makes the result invalid iff those did or the size is outside `[a, b]`, lower-bound message first |
| ListFieldValidators.NotEmptyOnEmpty | src/main/java/io/github/veerakumarak/validations/helpers/ListFieldValidator.java:25-71 | `nonNull().notEmpty()` on an empty list is invalid with the reason `must be empty` |
| ListFieldValidators.ContainsAllOnSuperset | src/main/java/io/github/veerakumarak/validations/helpers/ListFieldValidator.java:25-51 | `nonNull().containsAll(xs)` is `ok` on any list holding each element of `xs`, in any order |
| ListFieldValidators.EmptyOrNotEmpty | src/main/java/io/github/veerakumarak/validations/helpers/ListFieldValidator.java:65-71 | after checks that accept `l`, `isEmpty()` is `ok` iff `l` is empty and `notEmpty()` iff not; either one rejects with the same reason `must be empty` |
| ListFieldValidators.ContainsOrNotContains | src/main/java/io/github/veerakumarak/validations/helpers/ListFieldValidator.java:45-55 | after checks that accept `l`, `contains(x)` is `ok` iff `x` is in `l` and `notContains(x)` iff not; either one rejects with `must contain x` |
| ListValidators.Start | src/main/java/io/github/veerakumarak/validations/helpers/ListValidator.java:17-19 | a fresh validator holding the one check |
| ListValidators.Append | src/main/java/io/github/veerakumarak/validations/helpers/ListValidator.java:29-67 | `add` through the receiver: appends in place and returns the receiver |
| ListValidators.NonNull | src/main/java/io/github/veerakumarak/validations/helpers/ListValidator.java:21-23 | a fresh validator holding `nonNull` with `list must be non null` |
| ListValidators.IsNull | src/main/java/io/github/veerakumarak/validations/helpers/ListValidator.java:25-27 | a fresh validator holding `isNull` with `list must be null` |
| ListValidators.MoreThan | src/main/java/io/github/veerakumarak/validations/helpers/ListValidator.java:29-31 | the receiver, with `moreThan(size)` (message ending `size.`) appended in place |
| ListValidators.LessThan | src/main/java/io/github/veerakumarak/validations/helpers/ListValidator.java:33-35 | the receiver, with `lessThan(size)` (message ending `size.`) appended in place |
| ListValidators.Between | src/main/java/io/github/veerakumarak/validations/helpers/ListValidator.java:37-39 | the receiver, with `moreThan(a)` then `lessThan(b)` appended in place |
| ListValidators.Contains | src/main/java/io/github/veerakumarak/validations/helpers/ListValidator.java:41-43 | the receiver, with `contains(item)` appended in place |
| ListValidators.ContainsAll | src/main/java/io/github/veerakumarak/validations/helpers/ListValidator.java:45-47 | the receiver, with `containsAll(list)` appended in place |
| ListValidators.NotContains | src/main/java/io/github/veerakumarak/validations/helpers/ListValidator.java:49-51 | the receiver, with `notContains(item)` appended in place |
| ListValidators.Equals | src/main/java/io/github/veerakumarak/validations/helpers/ListValidator.java:53-55 | the receiver, with `equals(list)` appended in place |
| ListValidators.NotEquals | src/main/java/io/github/veerakumarak/validations/helpers/ListValidator.java:57-59 | the receiver, with `notEquals(list)` appended in place |
| ListValidators.IsEmpty | src/main/java/io/github/veerakumarak/validations/helpers/ListValidator.java:61-63 | the receiver, with `isEmpty()` appended in place |
| ListValidators.NotEmpty | src/main/java/io/github/veerakumarak/validations/helpers/ListValidator.java:65-67 | the receiver, with `notEmpty()` appended in place |
| ListValidators.NotContainsOnMember | src/main/java/io/github/veerakumarak/validations/helpers/ListValidator.java:21-51 | `nonNull().notContains(x)` on a list holding `x` fails with `must contain x` |
| ListValidators.BetweenWithin | src/main/java/io/github/veerakumarak/validations/helpers/ListValidator.java:29-39 | `nonNull().between(a, b)` on a list whose size is in `[a, b]` is `Result.ok`: both bounds inclusive |
| ListValidators.ContainsOrNotContains | src/main/java/io/github/veerakumarak/validations/helpers/ListValidator.java:41-51 | under `test`, after checks that accept `l`, exactly one of `contains(x)` and `notContains(x)` gives `Result.ok`; the other fails with `must contain x` |
| TemporalChecks.StrictAtTheDate | src/main/java/io/github/veerakumarak/validations/helpers/LocalDateFieldValidator.java:34-48 | `before(d)` and `after(d)` fail on `d` itself, the `OrEqual` forms pass on it |
| TemporalChecks.Trichotomy | src/main/java/io/github/veerakumarak/validations/helpers/LocalDateFieldValidator.java:34-52 | on every date exactly one of `before`, `equal` and `after` passes |
| TemporalChecks.OrEqualIsNegation | src/main/java/io/github/veerakumarak/validations/helpers/LocalDateFieldValidator.java:34-48 | `beforeOrEqual` passes iff `after` fails, iff `before` or `equal` passes; dually for `afterOrEqual` |
| TemporalChecks.EqualComplementary | src/main/java/io/github/veerakumarak/validations/helpers/LocalDateFieldValidator.java:50-56 | `equal(d)` and `notEqual(d)` decide oppositely |
| TemporalChecks.ThrowOnNull | src/main/java/io/github/veerakumarak/validations/helpers/LocalDateFieldValidator.java:34-56 | every date comparison throws on null |
| LocalDateFieldValidators.Start | src/main/java/io/github/veerakumarak/validations/helpers/LocalDateFieldValidator.java:18-20 | a fresh validator holding the one check |
| LocalDateFieldValidators.NonNull | src/main/java/io/github/veerakumarak/validations/helpers/LocalDateFieldValidator.java:22-24 | a fresh validator holding `nonNull` with `local date value must be non null` |
| LocalDateFieldValidators.IsNull | src/main/java/io/github/veerakumarak/validations/helpers/LocalDateFieldValidator.java:26-28 | a fresh validator holding `isNull` with `local date value must be null` |
| LocalDateFieldValidators.Optional | src/main/java/io/github/veerakumarak/validations/helpers/LocalDateFieldValidator.java:30-32 | a fresh validator holding the `nonNull`/`FAILURE`/`NONE` seed |
| LocalDateFieldValidators.Before | src/main/java/io/github/veerakumarak/validations/helpers/LocalDateFieldValidator.java:34-36 | a fresh validator holding only `before(date)`, whatever the receiver held |
| LocalDateFieldValidators.After | src/main/java/io/github/veerakumarak/validations/helpers/LocalDateFieldValidator.java:38-40 | a fresh validator holding only `after(date)` |
| LocalDateFieldValidators.BeforeOrEqual | src/main/java/io/github/veerakumarak/validations/helpers/LocalDateFieldValidator.java:42-44 | a fresh validator holding only `beforeOrEqual(date)` |
| LocalDateFieldValidators.AfterOrEqual | src/main/java/io/github/veerakumarak/validations/helpers/LocalDateFieldValidator.java:46-48 | a fresh validator holding only `afterOrEqual(date)` |
| LocalDateFieldValidators.Equal | src/main/java/io/github/veerakumarak/validations/helpers/LocalDateFieldValidator.java:50-52 | a fresh validator holding only `equal(date)` |
| LocalDateFieldValidators.NotEqual | src/main/java/io/github/veerakumarak/validations/helpers/LocalDateFieldValidator.java:54-56 | a fresh validator holding only `notEqual(date)` |
| LocalDateFieldValidators.NonNullBeforeOnNull | src/main/java/io/github/veerakumarak/validations/helpers/LocalDateFieldValidator.java:22-36 | `nonNull().before(d)` on null throws: the `nonNull` check was dropped |
| LocalDateFieldValidators.AfterThenBefore | src/main/java/io/github/veerakumarak/validations/helpers/LocalDateFieldValidator.java:34-40 | `nonNull().after(lo).before(hi)` checks only `before(hi)`: `ok` iff the date precedes `hi` |
| LocalDateFieldValidators.EqualOrNotEqual | src/main/java/io/github/veerakumarak/validations/helpers/LocalDateFieldValidator.java:50-56 | the one-check validators of `equal(d)` and `notEqual(d)`: exactly one accepts a date, the other fails with `must be equal d` or `must be not equal d` |
| LocalDateTimeFieldValidators.Start | src/main/java/io/github/veerakumarak/validations/helpers/LocalDateTimeFieldValidator.java:15-17 | a fresh validator holding the one check |
| LocalDateTimeFieldValidators.NonNull | src/main/java/io/github/veerakumarak/validations/helpers/LocalDateTimeFieldValidator.java:19-21 | a fresh validator holding `nonNull` with `local date time value must be non null` |
| LocalDateTimeFieldValidators.IsNull | src/main/java/io/github/veerakumarak/validations/helpers/LocalDateTimeFieldValidator.java:23-25 | a fresh validator holding `isNull` with `local date time value must be null` |
| LocalDateTimeFieldValidators.Optional | src/main/java/io/github/veerakumarak/validations/helpers/LocalDateTimeFieldValidator.java:27-29 | a fresh validator holding the `nonNull`/`FAILURE`/`NONE` seed |
| LocalDateTimeFieldValidators.Before | src/main/java/io/github/veerakumarak/validations/helpers/LocalDateTimeFieldValidator.java:31-33 | a fresh validator holding only `before(dateTime)`, whatever the receiver held |
| LocalDateTimeFieldValidators.After | src/main/java/io/github/veerakumarak/validations/helpers/LocalDateTimeFieldValidator.java:35-37 | a fresh validator holding only `after(dateTime)` |
| LocalDateTimeFieldValidators.BeforeOrEqual | src/main/java/io/github/veerakumarak/validations/helpers/LocalDateTimeFieldValidator.java:39-41 | a fresh validator holding only `beforeOrEqual(dateTime)` |
| LocalDateTimeFieldValidators.AfterOrEqual | src/main/java/io/github/veerakumarak/validations/helpers/LocalDateTimeFieldValidator.java:43-45 | a fresh validator holding only `afterOrEqual(dateTime)` |
| LocalDateTimeFieldValidators.Equal | src/main/java/io/github/veerakumarak/validations/helpers/LocalDateTimeFieldValidator.java:47-49 | a fresh validator holding only `equal(dateTime)` |
| LocalDateTimeFieldValidators.NotEqual | src/main/java/io/github/veerakumarak/validations/helpers/LocalDateTimeFieldValidator.java:51-53 | a fresh validator holding only `notEqual(dateTime)` |
| LocalDateTimeFieldValidators.OptionalAfterOnNull | src/main/java/io/github/veerakumarak/validations/helpers/LocalDateTimeFieldValidator.java:27-37 | `optional().after(t)` on null throws instead of reporting an absent value: the seed was dropped |
| LocalDateTimeFieldValidators.EqualThenNotEqual | src/main/java/io/github/veerakumarak/validations/helpers/LocalDateTimeFieldValidator.java:47-53 | `nonNull().equal(a).notEqual(b)` checks only `notEqual(b)`: `ok` iff the instant differs from `b` |
| LocalDateTimeValidators.Start | src/main/java/io/github/veerakumarak/validations/helpers/LocalDateTimeValidator.java:14-16 | a fresh validator holding the one check |
| LocalDateTimeValidators.NonNull | src/main/java/io/github/veerakumarak/validations/helpers/LocalDateTimeValidator.java:18-20 | a fresh validator holding `nonNull` with `date value must be non null` |
| LocalDateTimeValidators.IsNull | src/main/java/io/github/veerakumarak/validations/helpers/LocalDateTimeValidator.java:22-24 | a fresh validator holding `isNull` with `date value must be null` |
| LocalDateTimeValidators.Optional | src/main/java/io/github/veerakumarak/validations/helpers/LocalDateTimeValidator.java:26-28 | a fresh validator holding the `nonNull`/`FAILURE`/`NONE` seed |
| LocalDateTimeValidators.NonNullOn | src/main/java/io/github/veerakumarak/validations/helpers/LocalDateTimeValidator.java:18-20 | `nonNull().test`: `Result.ok` on any instant, `Result.fail(field, "date value must be non null")` on null |
| LocalDateTimeValidators.IsNullOn | src/main/java/io/github/veerakumarak/validations/helpers/LocalDateTimeValidator.java:22-24 | `isNull().test`: `Result.ok` on null, `Result.fail(field, "date value must be null")` on any instant |
| LocalDateTimeValidators.OptionalOn | src/main/java/io/github/veerakumarak/validations/helpers/LocalDateTimeValidator.java:26-28 | `optional().test`: `Result.ok` on any instant, `Result(false, field, [])` on null |

## Left out

- `ValidationResult.orThrow` and `Reasons.orThrow` are left out. They throw `InvalidRequest` unconditionally, even on a valid result (src/main/java/io/github/veerakumarak/validations/ValidationResult.java:42-44). The exception type comes from an external functional-programming library.
- `ValidationResult.toFailure` and `Reasons.toFailure` are left out. They build `Failures` values of that external library.
- `FieldValidators.FieldValidator.Extend` models the copy constructor the copy builders call, `new XFieldValidator(this, ...)`. It takes the other validator's checks and appends one. `FieldValidator.java` as shown defines no such constructor, so its behaviour is assumed from the helpers' use of it.
- The `Terminate` and `ErrorOn` enums are reconstructed from their use, as `FAILURE`/`SUCCESS`/`NONE` and `FAILURE`/`NONE`. Their own files are not part of this model.
- Regular-expression matching (`String.matches`) is a caller-supplied predicate `matches`. Only the regex check's acceptance of null is modelled.
- `LocalDateFieldValidator.validFormat` and date parsing are not modelled.
- `LocalDate` and `LocalDateTime` are positions on an integer time line, and `isBefore`/`isAfter`/`equals` are `<`/`>`/`==`.
- The `toString()` of list items, lists and dates inside messages is a text argument (`itemText`, `listText`, `dateText`). The `%s` of an `int` is its decimal form, and the `%s` of a boolean is `true`/`false`.
- Messages.Render: the order of several entries in `getMessage` follows the `HashMap`'s iteration order. The model takes that order as a parameter, and pins down only the empty map and the single-entry rendering.
- ValidationResults.ValidationResult.GetMessage: the text of a map with several entries is pinned only up to the `HashMap` iteration order, which is the `order` parameter; only the empty and single-entry texts are fixed.
- ReasonsRecord.Reasons.GetMessage: the same as for `ValidationResult.getMessage`: only the empty and single-entry texts are fixed.
- Java `int` is 32-bit. The helpers only compare values and sizes, so the model uses unbounded integers; no arithmetic can wrap.
- `String.length()` counts UTF-16 code units; the model counts characters of a `string`.
- Null arguments to the builders, a null map given to `of`/`getMessage`, and null elements inside lists are not modelled. Only the validated value itself may be null.
- `Validator.allValid` and `Validator.anyValid` are called by the example programs but not defined in `Validator.java`, so they are not modelled.
- `IValidation` is a one-method interface with no behaviour. `Validator` implements it through `test`.
- `Reasons.of(map)` is the record constructor, `ReasonsRecord.Reasons`, with no contract of its own.
- ListValidators.NotEquals takes a list of the validator's own element type. The source declares `List<String>`, which only type-checks for string lists.
- The example programs under `exmaple/` only print, and they are not used as oracles because their comments contradict the code. `SimpleExample.java:25,34` shows messages the code does not produce. `ChainingExample.java:28` shows two reasons where the code gives one (`StringFieldValidators.EmptyUsername`). `OptionalExample.java:19` says valid where the code gives invalid (`StringFieldValidators.OptionalMatching`).
