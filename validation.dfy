/** The validation engine: `validateField` decides one field against its
    rule, `validateForm` walks a snapshot of the submitted entries. */
module Validation {
  import opened Text
  import opened Patterns
  import opened Rules

  /** `{ valid: true }` or `{ valid: false, error: … }`; the error is `None`
      where the rule has no text for the failing kind (JavaScript's
      `undefined`). */
  datatype Verdict = Valid | Invalid(error: Option<string>)

  /** A submitted form: its (name, value) entries in document order. */
  type Snapshot = seq<(string, string)>

  /** The text `rules.errorMessages[k]`, if there is one. */
  function Message(rule: Rule, k: Kind): Option<string>
  {
    if k in rule.errorMessages then Some(rule.errorMessages[k]) else None
  }

  // ---------------------------------------------------------------------
  // Reference definition: which failure a value is reported with

  /** The single check of kind `k` fails on `v`, whatever the other checks
      say. */
  predicate Violates(rule: Rule, v: string, k: Kind)
  {
    HasCheck(rule, k) &&
    match k
    case Required => Blank(v)
    case MinLength => |v| < rule.minLength.value
    case MaxLength => |v| > rule.maxLength.value
    case Pattern => !Matches(rule.pattern.value, v)
  }

  /** The order in which the checks run. */
  function Rank(k: Kind): nat
  {
    match k
    case Required => 0
    case MinLength => 1
    case MaxLength => 2
    case Pattern => 3
  }

  /** `k` is the failure reported for `v`: the value is not a blank value of
      an optional field, check `k` fails, and every earlier check passes. */
  predicate Reported(rule: Rule, v: string, k: Kind)
  {
    !(Blank(v) && !rule.required)
    && Violates(rule, v, k)
    && forall k' :: Rank(k') < Rank(k) ==> !Violates(rule, v, k')
  }

  // ---------------------------------------------------------------------
  // validateField

  /** The chain of early returns of `validateField` once the rule is found. */
  function Check(rule: Rule, v: string): (r: Verdict)
    ensures r.Valid? <==> (Blank(v) && !rule.required) || forall k :: !Violates(rule, v, k)
    ensures r.Invalid? ==> exists k :: Reported(rule, v, k)
    ensures forall k :: Reported(rule, v, k) ==> r == Invalid(Message(rule, k))
  {
    if rule.required && Blank(v) then
      assert Reported(rule, v, Required);
      Invalid(Message(rule, Required))
    else if !rule.required && Blank(v) then
      Valid
    else if rule.minLength.Some? && rule.minLength.value > 0 && |v| < rule.minLength.value then
      assert Reported(rule, v, MinLength);
      Invalid(Message(rule, MinLength))
    else if rule.maxLength.Some? && rule.maxLength.value > 0 && |v| > rule.maxLength.value then
      assert Reported(rule, v, MaxLength);
      Invalid(Message(rule, MaxLength))
    else if rule.pattern.Some? && !Matches(rule.pattern.value, v) then
      assert Reported(rule, v, Pattern);
      Invalid(Message(rule, Pattern))
    else
      Valid
  }

  /** `validateField(fieldName, value)`. A name the table does not know is
      valid; otherwise a failure always carries the rule's own text for the
      kind that failed. */
  function ValidateField(name: string, v: string): (r: Verdict)
    ensures name !in ValidationRules ==> r == Valid
    ensures r.Invalid? ==>
              name in ValidationRules
              && exists k :: Reported(ValidationRules[name], v, k)
                             && k in ValidationRules[name].errorMessages
                             && r.error == Some(ValidationRules[name].errorMessages[k])
  {
    if name in ValidationRules then
      var rule := ValidationRules[name];
      TableMessagesComplete(name);
      Check(rule, v)
    else
      Valid
  }

  // ---------------------------------------------------------------------
  // The field-level promises of the rule table

  /** A required field that is empty or whitespace only fails with exactly
      its `required` text. */
  lemma RequiredBlankFails(name: string, v: string)
    requires name in ValidationRules && ValidationRules[name].required && Blank(v)
    ensures ValidateField(name, v) == Invalid(Some(ValidationRules[name].errorMessages[Required]))
  {
    TableMessagesComplete(name);
    assert Reported(ValidationRules[name], v, Required);
  }

  /** An optional field that is empty or whitespace only is valid, whatever
      its length or pattern rules. */
  lemma OptionalBlankValid(name: string, v: string)
    requires name in ValidationRules && !ValidationRules[name].required && Blank(v)
    ensures ValidateField(name, v) == Valid
  {
  }

  /** A non-blank full name shorter than two characters is reported as too
      short, never as a pattern mismatch, whether or not it matches the
      pattern. */
  lemma FullNameTooShort(v: string)
    requires !Blank(v) && |v| < 2
    ensures ValidateField("fullName", v) == Invalid(Some(FullNameMinLengthMessage))
    ensures ValidateField("fullName", v) != Invalid(Some(FullNamePatternMessage))
  {
    assert Reported(FullNameRule, v, MinLength);
  }

  /** A non-blank message is valid up to 1000 characters and too long from
      1001 on. */
  lemma MessageLengthBound(v: string)
    requires !Blank(v)
    ensures |v| <= 1000 ==> ValidateField("message", v) == Valid
    ensures |v| > 1000 ==> ValidateField("message", v) == Invalid(Some(MessageMaxLengthMessage))
  {
    if |v| > 1000 {
      assert Reported(MessageRule, v, MaxLength);
    }
  }

  /** A non-blank phone number fails only on the pattern, and then with the
      pattern text. */
  lemma PhoneFailsOnlyOnPattern(v: string)
    requires !Blank(v)
    ensures ValidateField("phone", v) == if PhoneMatch(v) then Valid else Invalid(Some(PhonePatternMessage))
  {
    if !PhoneMatch(v) {
      assert Reported(PhoneRule, v, Pattern);
    }
  }

  /** A non-blank e-mail address fails only on the pattern, and then with the
      pattern text. */
  lemma EmailFailsOnlyOnPattern(v: string)
    requires !Blank(v)
    ensures ValidateField("email", v) == if EmailShape(v) then Valid else Invalid(Some(EmailPatternMessage))
  {
    EmailMatchIff(v);
    if !EmailMatch(v) {
      assert Reported(EmailRule, v, Pattern);
    }
  }

  // ---------------------------------------------------------------------
  // validateForm

  /** The overall verdict of a snapshot, accumulated entry by entry as
      `isValid` is. */
  function FormValid(snapshot: Snapshot): bool
  {
    if snapshot == [] then true
    else
      var last := snapshot[|snapshot| - 1];
      FormValid(snapshot[..|snapshot| - 1]) && ValidateField(last.0, last.1).Valid?
  }

  /** A snapshot is valid exactly when each of its entries is. */
  lemma {:induction false} FormValidIff(snapshot: Snapshot)
    ensures FormValid(snapshot) <==>
              forall i :: 0 <= i < |snapshot| ==> ValidateField(snapshot[i].0, snapshot[i].1).Valid?
  {
    if snapshot != [] {
      var init := snapshot[..|snapshot| - 1];
      FormValidIff(init);
      assert forall i :: 0 <= i < |init| ==> init[i] == snapshot[i];
    }
  }

  /** `validateForm()`, with the `FormData` read replaced by the snapshot
      parameter. `verdicts[i]` is what `showFieldError` is told for entry
      `i`: its error text when invalid, nothing otherwise. */
  method ValidateForm(snapshot: Snapshot) returns (isValid: bool, verdicts: seq<Verdict>)
    ensures |verdicts| == |snapshot|
    ensures isValid == FormValid(snapshot)
    ensures isValid <==> forall i :: 0 <= i < |snapshot| ==> verdicts[i].Valid?
    ensures forall i :: 0 <= i < |snapshot| ==> verdicts[i] == ValidateField(snapshot[i].0, snapshot[i].1)
  {
    isValid := true;
    verdicts := [];
    for i := 0 to |snapshot|
      invariant isValid == FormValid(snapshot[..i])
      invariant |verdicts| == i
      invariant forall j :: 0 <= j < i ==> verdicts[j] == ValidateField(snapshot[j].0, snapshot[j].1)
    {
      var entry := snapshot[i];
      var validation := ValidateField(entry.0, entry.1);
      if !validation.Valid? {
        isValid := false;
      }
      verdicts := verdicts + [validation];
      assert snapshot[..i + 1][..i] == snapshot[..i];
    }
    assert snapshot[..|snapshot|] == snapshot;
    FormValidIff(snapshot);
  }

  // ---------------------------------------------------------------------
  // The form-level promises

  /** The overall verdict of two snapshots run one after the other is the
      conjunction of their verdicts. */
  lemma {:induction false} FormValidAppend(a: Snapshot, b: Snapshot)
    ensures FormValid(a + b) == (FormValid(a) && FormValid(b))
  {
    if b != [] {
      var init := b[..|b| - 1];
      FormValidAppend(a, init);
      assert (a + b)[..|a + b| - 1] == a + init;
    } else {
      assert a + b == a;
    }
  }

  /** Replacing any one entry by an invalid one makes the form invalid,
      whatever the other entries are. The other entries' verdicts stay as
      they were, because each entry is judged on its own name and value and
      the update leaves the other positions alone. */
  lemma OneInvalidEntryFails(snapshot: Snapshot, i: nat, name: string, v: string)
    requires i < |snapshot|
    requires ValidateField(name, v).Invalid?
    ensures !FormValid(snapshot[i := (name, v)])
    ensures forall j :: 0 <= j < |snapshot| && j != i ==>
              ValidateField(snapshot[i := (name, v)][j].0, snapshot[i := (name, v)][j].1)
              == ValidateField(snapshot[j].0, snapshot[j].1)
  {
    FormValidIff(snapshot[i := (name, v)]);
    assert snapshot[i := (name, v)][i] == (name, v);
  }

  /** An entry whose name the table does not know never changes the overall
      verdict, wherever it stands in the snapshot. */
  lemma UnknownEntryIgnored(a: Snapshot, b: Snapshot, name: string, v: string)
    requires name !in ValidationRules
    ensures FormValid(a + [(name, v)] + b) == FormValid(a + b)
  {
    FormValidAppend(a + [(name, v)], b);
    FormValidAppend(a, b);
    FormValidAppend(a, [(name, v)]);
    FormValidIff([(name, v)]);
  }

  /** A required field of the table submitted empty is invalid. */
  lemma RequiredEmptyInvalid(name: string)
    requires name in ValidationRules && ValidationRules[name].required
    ensures !ValidateField(name, "").Valid?
  {
    RequiredBlankFails(name, "");
  }

  /** A required field of the table is never demanded to be present, while
      the same field submitted empty is flagged: the engine only judges the
      entries it is given, so any snapshot of valid entries is valid, in
      particular one that leaves the required field out altogether, and
      adding that field blank makes the form invalid. */
  lemma MissingFieldNotFlagged(snapshot: Snapshot, name: string)
    requires name in ValidationRules && ValidationRules[name].required
    requires forall i :: 0 <= i < |snapshot| ==> ValidateField(snapshot[i].0, snapshot[i].1).Valid?
    ensures FormValid(snapshot)
    ensures !FormValid(snapshot + [(name, "")])
  {
    FormValidIff(snapshot);
    var withBlank := snapshot + [(name, "")];
    assert withBlank[..|snapshot|] == snapshot;
    assert withBlank[|withBlank| - 1] == (name, "");
    RequiredEmptyInvalid(name);
  }
}
