/**
 * The field validators of the login and registration forms
 * (common/src/types/auth.ts).  Each returns the message of the failed rule,
 * or `None` (the source's `null`) when the value passes.  Lengths are
 * JavaScript `.length`, i.e. UTF-16 code units.
 */
module AuthValidation {
  import opened Wrappers
  import opened Text
  import opened CommonUtils

  const InvalidEmailMessage := "Invalid email format"
  const ShortPasswordMessage := "Password must be at least 8 characters"
  const ShortFirstNameMessage := "First name must be at least 2 characters"
  const ShortLastNameMessage := "Last name must be at least 2 characters"

  /** The minimum password length of both forms. */
  const MinPasswordLength := 8

  /** The minimum length of either name on the registration form. */
  const MinNameLength := 2

  /**
   * The `email` rule of both `loginSchema` and `registerSchema` (the two
   * schemas write it out identically): the value must match
   * `^[^\s@]+@[^\s@]+\.[^\s@]+$`.
   */
  function EmailField(value: string): (r: Option<string>)
    ensures r.None? <==> EmailPattern(value)
    ensures r.Some? ==> r.value == InvalidEmailMessage
  {
    if !IsValidEmail(value) then Some(InvalidEmailMessage) else None
  }

  /**
   * The `password` rule of both schemas, again written out identically in
   * each: a length minimum and nothing else.
   */
  function PasswordField(value: string): (r: Option<string>)
    ensures r.None? <==> Utf16Length(value) >= MinPasswordLength
    ensures r.Some? ==> r.value == ShortPasswordMessage
  {
    if Utf16Length(value) < MinPasswordLength then Some(ShortPasswordMessage) else None
  }

  /** `registerSchema.firstName`. */
  function FirstNameField(value: string): (r: Option<string>)
    ensures r.None? <==> Utf16Length(value) >= MinNameLength
    ensures r.Some? ==> r.value == ShortFirstNameMessage
  {
    if Utf16Length(value) < MinNameLength then Some(ShortFirstNameMessage) else None
  }

  /** `registerSchema.lastName`. */
  function LastNameField(value: string): (r: Option<string>)
    ensures r.None? <==> Utf16Length(value) >= MinNameLength
    ensures r.Some? ==> r.value == ShortLastNameMessage
  {
    if Utf16Length(value) < MinNameLength then Some(ShortLastNameMessage) else None
  }

  /** A single character outside the Basic Multilingual Plane already meets the two-character name minimum. */
  lemma NameLengthCountsCodeUnits()
    ensures FirstNameField("\U{1F600}").None? && LastNameField("\U{1F600}").None?
    ensures FirstNameField("a").Some? && LastNameField("a").Some?
  {
    assert Utf16Length("\U{1F600}") == 2;
  }

  /** An accepted e-mail has a single `@`, no whitespace, and a dot strictly inside its domain. */
  lemma AcceptedEmailFieldShape(value: string)
    requires EmailField(value).None?
    ensures exists at :: 0 < at < |value| && value[at] == '@' && (forall k :: 0 <= k < |value| && k != at ==> value[k] != '@')
              && '.' in value[at + 1..][1..|value| - at - 2]
    ensures forall k :: 0 <= k < |value| ==> !IsJsWhitespace(value[k])
  {
    AcceptedEmailShape(value);
  }

  /**
   * The password rule is weaker than the shared `isValidPassword` helper:
   * every password that helper accepts passes the form, but eight lower-case
   * letters pass the form while the helper rejects them.
   */
  lemma PasswordRuleWeakerThanPattern(p: string)
    ensures PasswordPattern(p) ==> PasswordField(p).None?
    ensures PasswordField("aaaaaaaa").None? && !PasswordPattern("aaaaaaaa")
  {
    assert !(exists i :: 0 <= i < |"aaaaaaaa"| && IsAsciiUpper("aaaaaaaa"[i]));
  }

  /**
   * Since `.length` counts UTF-16 code units, four characters outside the
   * Basic Multilingual Plane already meet the eight-character minimum, and
   * any string of eight characters does.
   */
  lemma PasswordLengthCountsCodeUnits(p: string)
    ensures |p| >= MinPasswordLength ==> PasswordField(p).None?
    ensures PasswordField("\U{1F600}\U{1F600}\U{1F600}\U{1F600}").None?
  {
    assert Utf16Length("\U{1F600}\U{1F600}\U{1F600}\U{1F600}") == 8;
  }
}
