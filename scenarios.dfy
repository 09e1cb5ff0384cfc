/** Concrete inputs and the verdicts the engine gives them. */
module Scenarios {
  import opened Text
  import opened Patterns
  import opened Rules
  import opened Validation

  /** `n` copies of the character `c`. */
  function Repeat(c: char, n: nat): (s: string)
    ensures |s| == n && forall i :: 0 <= i < n ==> s[i] == c
  {
    seq(n, _ => c)
  }

  lemma RepeatNotBlank(c: char, n: nat)
    requires !IsWs(c) && n > 0
    ensures !Blank(Repeat(c, n))
  {
    assert Repeat(c, n)[0] == c;
  }

  lemma RepeatBlank(c: char, n: nat)
    requires IsWs(c)
    ensures Blank(Repeat(c, n))
  {
  }

  /** `"123"` is rejected by the phone pattern; `"050-1234567"` passes. */
  lemma PhoneExamples()
    ensures ValidateField("phone", "123") == Invalid(Some(PhonePatternMessage))
    ensures ValidateField("phone", "050-1234567") == Valid
  {
    assert "123"[0] == '1';
    PhoneFailsOnlyOnPattern("123");
    var good := "050-1234567";
    assert good[0] == '0';
    PhoneHyphenForm(good);
    PhoneFailsOnlyOnPattern(good);
  }

  /** `"A"` is too short before it is a pattern mismatch; a single Hebrew
      letter matches the pattern and is too short all the same. */
  lemma FullNameExample()
    ensures ValidateField("fullName", "A") == Invalid(Some(FullNameMinLengthMessage))
    ensures NameMatch("\U{05D0}")
    ensures ValidateField("fullName", "\U{05D0}") == Invalid(Some(FullNameMinLengthMessage))
  {
    assert "A"[0] == 'A';
    FullNameTooShort("A");
    assert "\U{05D0}"[0] == '\U{05D0}';
    FullNameTooShort("\U{05D0}");
  }

  /** 1000 characters of message pass, 1001 do not; 1001 spaces pass, since a
      blank optional field skips the length check. */
  lemma MessageExamples()
    ensures ValidateField("message", Repeat('x', 1000)) == Valid
    ensures ValidateField("message", Repeat('x', 1001)) == Invalid(Some(MessageMaxLengthMessage))
    ensures ValidateField("message", Repeat(' ', 1001)) == Valid
  {
    RepeatNotBlank('x', 1000);
    MessageLengthBound(Repeat('x', 1000));
    RepeatNotBlank('x', 1001);
    MessageLengthBound(Repeat('x', 1001));
    RepeatBlank(' ', 1001);
    OptionalBlankValid("message", Repeat(' ', 1001));
  }

  const GoodSnapshot: Snapshot :=
    [("fullName", "אבי כהן"), ("phone", "050-1234567"), ("email", ""),
     ("propertyType", "apartment"), ("message", "")]

  const BadSnapshot: Snapshot :=
    [("fullName", "A"), ("phone", "123"), ("email", "bad"),
     ("propertyType", ""), ("message", Repeat('x', 1001))]

  /** The full name `אבי כהן` (Hebrew letters and a space) is valid. */
  lemma HebrewNameValid()
    ensures ValidateField("fullName", "אבי כהן") == Valid
  {
    var name := "אבי כהן";
    assert NameMatch(name);
    assert name[0] == '\U{05D0}';
  }

  /** Any chosen property type is valid: the field is only required. */
  lemma PropertyTypeValid()
    ensures ValidateField("propertyType", "apartment") == Valid
  {
    assert "apartment"[0] == 'a';
  }

  /** A complete, well-formed submission is valid. */
  lemma GoodSnapshotValid()
    ensures FormValid(GoodSnapshot)
  {
    var g := GoodSnapshot;
    forall i | 0 <= i < |g| ensures ValidateField(g[i].0, g[i].1).Valid? {
      if i == 0 {
        HebrewNameValid();
      } else if i == 1 {
        PhoneExamples();
      } else if i == 2 {
        OptionalBlankValid("email", "");
      } else if i == 3 {
        PropertyTypeValid();
      } else {
        OptionalBlankValid("message", "");
      }
    }
    FormValidIff(g);
  }

  /** Every field of the bad submission fails, each with the text of the
      check that comes first: too short, pattern, pattern, required, too
      long. The optional e-mail is not blank, so its pattern is checked. */
  lemma BadSnapshotVerdicts()
    ensures !FormValid(BadSnapshot)
    ensures ValidateField("fullName", "A") == Invalid(Some(FullNameMinLengthMessage))
    ensures ValidateField("phone", "123") == Invalid(Some(PhonePatternMessage))
    ensures ValidateField("email", "bad") == Invalid(Some(EmailPatternMessage))
    ensures ValidateField("propertyType", "") == Invalid(Some(PropertyTypeRequiredMessage))
    ensures ValidateField("message", Repeat('x', 1001)) == Invalid(Some(MessageMaxLengthMessage))
  {
    FullNameExample();
    PhoneExamples();
    assert "bad"[0] == 'b';
    EmailMatchIff("bad");
    EmailFailsOnlyOnPattern("bad");
    RequiredBlankFails("propertyType", "");
    MessageExamples();
    FormValidIff(BadSnapshot);
    assert BadSnapshot[0] == ("fullName", "A");
  }

  /** A snapshot that leaves out the required phone field entirely is still
      valid: the engine judges only what was submitted. */
  lemma MissingPhoneNotFlagged()
    ensures FormValid([("fullName", "אבי כהן"), ("propertyType", "apartment")])
  {
    var s := [("fullName", "אבי כהן"), ("propertyType", "apartment")];
    forall i | 0 <= i < |s| ensures ValidateField(s[i].0, s[i].1).Valid? {
      if i == 0 { HebrewNameValid(); } else { PropertyTypeValid(); }
    }
    MissingFieldNotFlagged(s, "phone");
  }
}
