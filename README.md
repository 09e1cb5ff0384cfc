# Contact-form validation engine

A Dafny model of the validation engine of the contact page's `script.js`:

- the rule table `validationRules`: a fixed map from field name to a rule record;
- `validateField(fieldName, value)`: checks in a fixed order and stops at the first failure;
- the accumulation inside `validateForm()`: it walks the submitted entries in order and is true only when every entry is valid.

Modules:

- `Text` (text.dfy): whitespace as `trim()` and `\s` see it, ASCII digits, and the Hebrew letter range.
- `Patterns` (patterns.dfy): the three regular expressions of the table, each written as a matcher that follows the expression part by part, plus what each one accepts, stated without that structure.
- `Rules` (rules.dfy): the rule record, the failure kinds, the error texts (verbatim) and the table.
- `Validation` (validation.dfy):
  - `Check`, the chain of early returns, and `ValidateField`;
  - `FormValid`, the overall verdict as a function;
  - `ValidateForm`, the loop of `validateForm` as a method;
  - the field-level and form-level properties.
- `Scenarios` (scenarios.dfy): concrete inputs and their verdicts, among them a complete valid submission and a submission in which every field fails.

The reference definition that `Check` is proved against is declarative:
- `Violates(rule, v, k)` says that check `k` fails when taken alone.
- `Rank` gives the order of the checks.
- `Reported(rule, v, k)` says that `k` fails on a value that is not a blank optional value, and that every earlier check passes.

A verdict is `Valid` or `Invalid(error)`. `error` is an `Option`, because `rules.errorMessages.<kind>` would be `undefined` for a kind without a text. `TableMessagesComplete` proves that this never happens with this table.

Points where the code is followed closely:
- `rules.minLength && …` and `rules.maxLength && …` treat a bound of 0 as "no check". `HasCheck` and `Check` do the same.
- Names that `validationRules` does not own but inherits, such as `toString` or `__proto__`, reach prototype members that have none of the rule properties. Such a name therefore behaves like a name that is missing from the table, and the map model is exact.
- Length is the untrimmed `value.length`. The pattern is tested on the untrimmed value.

An optional value that is not blank is still checked against its pattern (script.js:66-92). So in `BadSnapshotVerdicts` the e-mail value `"bad"` fails with the e-mail pattern text, and all five fields fail.

## Model

| member | source | states |
|---|---|---|
| `Rules.TableMessagesComplete` | script.js:9-48 | every rule of the table has an error text for each check it makes, so no failure is reported with an undefined message |
| `Patterns.NoPatternMatchesEmpty` | script.js:13 | none of the three regular expressions (`+` repetitions, fixed digit counts) matches the empty string |
| `Patterns.PhoneShape` | script.js:22 | every value the phone pattern accepts is 10 to 13 characters long, starts with `0`, holds only digits and `-`, and ends in four digits |
| `Patterns.PhoneDigitsOnly` | script.js:22 | an all-digit value of 10 or 11 characters with prefix 05/04/02/03/08/09 matches, with `\d{1,2}` taking one or two digits |
| `Patterns.PhoneHyphenForm` | script.js:22 | a value of the form `05X-XXXXXXX` (the form the error text asks for) matches |
| `Patterns.EmailMatchIff` | script.js:30 | an address matches the e-mail pattern iff it has no whitespace, exactly one `@` with something before it, and a `.` after the `@` that is neither right after it nor last |
| `Validation.Check` | script.js:57-94 | valid iff the value is a blank value of an optional field or no check fails; an invalid verdict has a reported kind; whichever kind is reported (the first failing check in the order required, minLength, maxLength, pattern), the verdict carries that kind's text |
| `Validation.ValidateField` | script.js:53-95 | a name missing from the table is valid; an invalid verdict belongs to a known field and carries, verbatim, the `errorMessages` text of the reported kind |
| `Validation.RequiredBlankFails` | script.js:58-63 | a required field that is empty or whitespace only fails with exactly its `required` text |
| `Validation.OptionalBlankValid` | script.js:66-68 | an optional field that is empty or whitespace only is valid, whatever its length or pattern rules |
| `Validation.FullNameTooShort` | script.js:12 | a non-blank full name shorter than 2 fails with the `minLength` text, never the `pattern` text |
| `Validation.MessageLengthBound` | script.js:43 | a non-blank message is valid up to 1000 characters and fails with the `maxLength` text beyond 1000 |
| `Validation.PhoneFailsOnlyOnPattern` | script.js:20-27 | a non-blank phone value is valid iff it matches the phone pattern, and fails with the pattern text otherwise |
| `Validation.EmailFailsOnlyOnPattern` | script.js:28-34 | a non-blank e-mail value is valid iff it has the address shape of `EmailMatchIff`, and fails with the pattern text otherwise |
| `Validation.FormValidIff` | script.js:119-133 | the overall verdict of a snapshot is true iff every entry validates |
| `Validation.ValidateForm` | script.js:118-134 | the loop returns the overall verdict of the snapshot and, for each entry in order, the verdict it shows for that field |
| `Validation.FormValidAppend` | script.js:122-131 | the verdict of two snapshots run one after the other is the conjunction of their verdicts |
| `Validation.OneInvalidEntryFails` | script.js:125-126 | replacing any single entry of any snapshot by an invalid one makes the form invalid and leaves every other entry's verdict unchanged |
| `Validation.UnknownEntryIgnored` | script.js:54-55 | an entry whose name is not in the table, inserted at any position of a snapshot, never changes the overall verdict |
| `Validation.MissingFieldNotFlagged` | script.js:122-131 | presence of a required field is never demanded: any snapshot of valid entries is valid, one that leaves the required field out included, while adding that field empty makes the form invalid |
| `Scenarios.HebrewNameValid` | script.js:13 | the full name `אבי כהן` (Hebrew letters and a space) is valid |
| `Scenarios.PhoneExamples` | script.js:87-92 | `"123"` fails with the phone pattern text; `"050-1234567"` is valid |
| `Scenarios.FullNameExample` | script.js:71-76 | `"A"` fails with the full name's `minLength` text; a single Hebrew letter matches the name pattern and still fails with the `minLength` text |
| `Scenarios.MessageExamples` | script.js:79-84 | a message of 1000 characters is valid, 1001 fails with the `maxLength` text, and 1001 spaces are valid |
| `Scenarios.GoodSnapshotValid` | script.js:118-134 | the submission `אבי כהן` / `050-1234567` / empty / `apartment` / empty is valid |
| `Scenarios.BadSnapshotVerdicts` | script.js:118-134 | the submission `A` / `123` / `bad` / empty / 1001 × `x` is invalid, and each field fails with the text of its first failing check |
| `Scenarios.MissingPhoneNotFlagged` | script.js:119-133 | a snapshot without any phone entry is valid when its entries are |

## Left out

- `showFieldError`, the element lookups, `FormData` and `contactForm.reset()`: DOM reads and writes. The snapshot is a parameter. What `validateForm` would display for each entry is returned as its list of verdicts.
- `clearForm` and `getFormData`: a DOM reset and a DOM read, with no logic of their own.
- `handleFormSubmit`: event handling, console output and a timer. It does not call `validateForm`.
- `setupFieldValidation`, `initializeForm`, `isFormValid` and `submitForm`: listener registration and thin wrappers around `validateForm`.
- Smooth scrolling, the WhatsApp link, the header shadow, the fade-in observer and the conditional `module.exports`: browser APIs and environment plumbing.
- `value.length` counts UTF-16 code units. Here length counts characters. The two differ for characters above U+FFFF, which count 2 in the source and 1 here, and that can change a verdict:
  - a full name made of one such character (U+1F600, say) has length 2 in the source, passes the length check, fails the pattern and gets the `pattern` text; the model gives it the `minLength` text;
  - a message of 501 to 1000 such characters is valid in the model but too long in the source.
- The regular expressions run without the `u` flag, so the source matches them code unit by code unit. The model matches them character by character. The same characters above U+FFFF are therefore also seen differently by the patterns.
- `!value` for a `null` or `undefined` value is not modelled, because form values are always strings.
- The whitespace set follows ECMAScript's WhiteSpace and LineTerminator productions with the current Unicode space separators. A different engine's Unicode version is not modelled.
