/**
 * One contact-form field and the rules `validateField` applies to it: the
 * email format, the required check and the minimum message length, tried in
 * that order on the trimmed value, the first failure giving the error text.
 */
module Validation {
  import opened Wrappers
  import opened Text
  import opened Email

  /** The `type` of the form control: `text`, `email`, `select-one` or `textarea`. */
  datatype Kind = TextInput | EmailInput | Select | TextArea

  /** The inline error element of a field: its text and whether its `show` class is on. */
  datatype ErrorSlot = ErrorSlot(text: string, shown: bool)

  /**
   * A form control as the validator sees it: its id, type, `required` attribute
   * and current value, its error element, and whether its border is set to the
   * error colour.
   */
  datatype Field = Field(
    id: string,
    kind: Kind,
    required: bool,
    value: string,
    error: ErrorSlot,
    highlighted: bool)

  const EmailMessage: string := "Please enter a valid email address"
  const RequiredMessage: string := "This field is required"
  const LengthMessage: string := "Message must be at least 10 characters long"

  /** The length rule applies to the control whose id is `message`, whatever its type. */
  const MessageId: string := "message"
  const MinMessageLength: nat := 10

  /**
   * Every rule the field is subject to holds of its trimmed value: an email
   * control holds an address, a required control is not blank, and the message
   * is at least ten UTF-16 code units long.
   */
  predicate Passes(f: Field) {
    var v := Trim(f.value);
    && (f.kind == EmailInput ==> IsEmailAddress(v))
    && (f.required ==> v != [])
    && (f.id == MessageId ==> Utf16Length(v) >= MinMessageLength)
  }

  /**
   * The rules of `validateField`, in their order: the message of the first
   * rule the trimmed value breaks, or None. The field fails exactly when some
   * rule does not hold, whatever the order.
   */
  function Check(f: Field): (r: Option<string>)
    ensures r.None? <==> Passes(f)
    ensures r.Some? ==> r.value == EmailMessage || r.value == RequiredMessage || r.value == LengthMessage
  {
    var v := Trim(f.value);
    EmailPatternIff(v);
    if f.kind == EmailInput && !MatchesEmailPattern(v) then Some(EmailMessage)
    else if f.required && v == [] then Some(RequiredMessage)
    else if f.id == MessageId && Utf16Length(v) < MinMessageLength then Some(LengthMessage)
    else None
  }

  /** `clearError`: the error element loses `show` and the border its colour; its text stays. */
  function Cleared(f: Field): Field {
    f.(error := f.error.(shown := false), highlighted := false)
  }

  /** `showError`: the error element gets the text and `show`, the border the error colour. */
  function Shown(f: Field, message: string): Field {
    f.(error := ErrorSlot(message, true), highlighted := true)
  }

  /**
   * The field after `validateField`: its error element is shown, and the
   * border coloured, exactly when the field fails, with the failing rule's
   * message; a passing field keeps its old error text, hidden. Its value and
   * attributes are untouched (so it validates the same way again: ValidatedKeepsVerdict).
   */
  function Validated(f: Field): (g: Field)
    ensures g.error.shown <==> !Passes(f)
    ensures g.highlighted <==> !Passes(f)
    ensures Check(f).Some? ==> g.error.text == Check(f).value
    ensures Check(f).None? ==> g.error.text == f.error.text
    ensures g.(error := f.error, highlighted := f.highlighted) == f
  {
    match Check(f)
    case None => Cleared(f)
    case Some(message) => Shown(Cleared(f), message)
  }

  /** The verdict depends only on what validation leaves alone, so validating again gives the same verdict. */
  lemma ValidatedKeepsVerdict(f: Field)
    ensures Check(Validated(f)) == Check(f)
  {
    var g := Validated(f);
    assert g.value == f.value && g.kind == f.kind && g.required == f.required && g.id == f.id by {
      assert g.(error := f.error, highlighted := f.highlighted) == f;
    }
  }

  /** Validating a field twice leaves it as validating it once. */
  lemma ValidatedIdempotent(f: Field)
    ensures Validated(Validated(f)) == Validated(f)
  {
    ValidatedKeepsVerdict(f);
  }

  /**
   * An email control fails the format rule, and reports it, exactly when its
   * trimmed value is not an address; this rule comes first, so it decides the
   * outcome even for a blank required control.
   */
  lemma EmailRule(f: Field)
    requires f.kind == EmailInput
    ensures Check(f) == Some(EmailMessage) <==> !IsEmailAddress(Trim(f.value))
    ensures Trim(f.value) == [] ==> Check(f) == Some(EmailMessage)
  {
    EmailPatternIff(Trim(f.value));
  }

  /**
   * A required control whose trimmed value is empty fails; unless it is an
   * email control (whose format rule fires first) it reports that it is required.
   */
  lemma RequiredRule(f: Field)
    requires f.required && Trim(f.value) == []
    ensures Check(f).Some?
    ensures f.kind != EmailInput ==> Check(f) == Some(RequiredMessage)
    ensures f.kind == EmailInput ==> Check(f) == Some(EmailMessage)
  {
  }

  /**
   * The `message` control reports the length error exactly when it passed the
   * earlier rules and its trimmed value is shorter than ten UTF-16 code units.
   */
  lemma MessageLengthRule(f: Field)
    requires f.id == MessageId
    ensures Check(f) == Some(LengthMessage) <==>
      && (f.kind == EmailInput ==> IsEmailAddress(Trim(f.value)))
      && !(f.required && Trim(f.value) == [])
      && Utf16Length(Trim(f.value)) < MinMessageLength
  {
    EmailPatternIff(Trim(f.value));
  }

  /** Whitespace typed around a value changes nothing about its validation. */
  lemma CheckIgnoresPadding(f: Field, p: string, q: string)
    requires AllSpace(p) && AllSpace(q)
    ensures Check(f.(value := p + f.value + q)) == Check(f)
  {
    TrimIgnoresPadding(p, f.value, q);
  }

}
