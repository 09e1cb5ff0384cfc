/** The rule table `validationRules`: one immutable rule record per form
    field, fixed when the page loads. */
module Rules {
  import opened Patterns

  datatype Option<+T> = None | Some(value: T)

  /** The failure kinds, named as the keys of `errorMessages`. */
  datatype Kind = Required | MinLength | MaxLength | Pattern

  /** A rule record. An absent `minLength`, `maxLength` or `pattern` is
      `None`; `errorMessages` holds a text for some of the kinds. */
  datatype Rule = Rule(
    required: bool,
    minLength: Option<nat>,
    maxLength: Option<nat>,
    pattern: Option<Regex>,
    errorMessages: map<Kind, string>)

  const FullNameRequiredMessage: string := "שם מלא הוא שדה חובה"
  const FullNameMinLengthMessage: string := "השם חייב להיות לפחות 2 תווים"
  const FullNamePatternMessage: string := "השם may contain Hebrew letters and spaces only"
  const PhoneRequiredMessage: string := "טלפון הוא שדה חובה"
  const PhonePatternMessage: string := "אנא הכנסו מספר טלפון תקין (למשל: 05X-XXXXXXX)"
  const EmailPatternMessage: string := "אנא הכנסו כתובת דוא\"ל תקינה"
  const PropertyTypeRequiredMessage: string := "בחרו סוג נכס"
  const MessageMaxLengthMessage: string := "ההודעה לא יכולה להיות יותר מ-1000 תווים"

  const FullNameRule: Rule :=
    Rule(true, Some(2), None, Some(HebrewName),
         map[Required := FullNameRequiredMessage,
             MinLength := FullNameMinLengthMessage,
             Pattern := FullNamePatternMessage])

  const PhoneRule: Rule :=
    Rule(true, None, None, Some(IsraeliPhone),
         map[Required := PhoneRequiredMessage, Pattern := PhonePatternMessage])

  const EmailRule: Rule :=
    Rule(false, None, None, Some(SimpleEmail), map[Pattern := EmailPatternMessage])

  const PropertyTypeRule: Rule :=
    Rule(true, None, None, None, map[Required := PropertyTypeRequiredMessage])

  const MessageRule: Rule :=
    Rule(false, None, Some(1000), None, map[MaxLength := MessageMaxLengthMessage])

  /** `validationRules`, keyed by the form control's `name`. Names the
      object does not own (`toString`, `__proto__`, ...) resolve to
      prototype members that have none of the rule properties, so they
      behave as names missing from this map. */
  const ValidationRules: map<string, Rule> :=
    map["fullName" := FullNameRule,
        "phone" := PhoneRule,
        "email" := EmailRule,
        "propertyType" := PropertyTypeRule,
        "message" := MessageRule]

  /** The rule has a check of kind `k`. A bound of 0 is falsy in
      `rules.minLength && …` and `rules.maxLength && …`, so it is no check. */
  predicate HasCheck(rule: Rule, k: Kind)
  {
    match k
    case Required => rule.required
    case MinLength => rule.minLength.Some? && rule.minLength.value > 0
    case MaxLength => rule.maxLength.Some? && rule.maxLength.value > 0
    case Pattern => rule.pattern.Some?
  }

  /** Every check a rule has comes with its own error text. */
  predicate MessagesComplete(rule: Rule)
  {
    forall k :: HasCheck(rule, k) ==> k in rule.errorMessages
  }

  /** Every rule of the table has a text for each check it makes, so no
      failure of the table is reported with an undefined message. */
  lemma TableMessagesComplete(name: string)
    requires name in ValidationRules
    ensures MessagesComplete(ValidationRules[name])
  {
    var rule := ValidationRules[name];
    forall k | HasCheck(rule, k) ensures k in rule.errorMessages {
      match k
      case Required =>
      case MinLength =>
      case MaxLength =>
      case Pattern =>
    }
  }
}
