/**
 * The three end-to-end situations of the contact form: a blank name, a
 * malformed email with a short message, and a complete form that submits.
 */
module Scenarios {
  import opened Wrappers
  import opened Text
  import opened Email
  import opened Validation
  import opened ContactForm

  /** `fs` are the four fields, all of them `required`, holding the given values. */
  predicate FilledWith(fs: seq<Field>, name: string, email: string, service: string, message: string) {
    && |fs| == FieldCount
    && (forall j | 0 <= j < FieldCount :: fs[j].id == FieldIds[j] && fs[j].kind == FieldKinds[j] && fs[j].required)
    && fs[0].value == name && fs[1].value == email && fs[2].value == service && fs[3].value == message
  }

  lemma NoSpaceTrims(s: string)
    requires s != [] && !IsSpace(s[0]) && !IsSpace(s[|s| - 1])
    ensures Trim(s) == s
  {
    TrimUnique(s, 0, |s|);
  }

  lemma AtSignAbsent(s: string)
    requires forall j | 0 <= j < |s| :: s[j] != '@'
    ensures !IsEmailAddress(s)
  {
  }

  /** A blank required field that is not an email control reports that it is required. */
  lemma BlankFieldFails(f: Field)
    requires f.kind != EmailInput && f.required && f.value == ""
    ensures Check(f) == Some(RequiredMessage)
  {
    RequiredRule(f);
  }

  /** An email control holding an address with nothing to trim passes. */
  lemma AddressPasses(f: Field)
    requires f.kind == EmailInput && f.id != MessageId
    requires Trim(f.value) == f.value && MatchesEmailPattern(f.value)
    ensures Check(f) == None
  {
    EmailPatternIff(f.value);
  }

  /** The address of the blank-name scenario matches the pattern and has nothing to trim. */
  lemma ShortAddressMatches(e: string)
    requires e == "a@b.com"
    ensures Trim(e) == e && MatchesEmailPattern(e)
  {
    NoSpaceTrims(e);
    assert e[1] == '@' && e[3] == '.';
    assert AllPlain(e[..1]) && AllPlain(e[2..3]) && AllPlain(e[4..]);
  }

  /** The address of the complete form matches the pattern and has nothing to trim. */
  lemma ExampleAddressMatches(e: string)
    requires e == "jo@example.com"
    ensures Trim(e) == e && MatchesEmailPattern(e)
  {
    NoSpaceTrims(e);
    assert e[2] == '@' && e[10] == '.';
    assert AllPlain(e[..2]) && AllPlain(e[3..10]) && AllPlain(e[11..]);
  }

  /** A value without `@` is reported as a malformed address. */
  lemma MalformedAddressFails(f: Field)
    requires f.kind == EmailInput && f.value == "not-an-email"
    ensures Check(f) == Some(EmailMessage)
  {
    NoSpaceTrims(f.value);
    AtSignAbsent(f.value);
    EmailRule(f);
  }

  /** A five-letter message is reported as too short. */
  lemma ShortMessageFails(f: Field)
    requires f.kind != EmailInput && f.id == MessageId && f.value == "short"
    ensures Check(f) == Some(LengthMessage)
  {
    NoSpaceTrims(f.value);
    assert Utf16Length(f.value) == 5;
    MessageLengthRule(f);
  }

  /** A field that is neither the email nor the message passes once it holds anything but whitespace. */
  lemma PlainFieldPasses(f: Field, v: string)
    requires f.kind != EmailInput && f.id != MessageId
    requires f.value == v && v != [] && !IsSpace(v[0]) && !IsSpace(v[|v| - 1])
    ensures Check(f) == None
  {
    NoSpaceTrims(v);
  }

  /** The message field passes with ten characters or more that do not start or end with whitespace. */
  lemma MessageFieldPasses(f: Field, v: string)
    requires f.kind != EmailInput && f.id == MessageId
    requires f.value == v && |v| >= MinMessageLength && !IsSpace(v[0]) && !IsSpace(v[|v| - 1])
    ensures Check(f) == None
  {
    NoSpaceTrims(v);
  }

  /** A blank name with everything else in order: only the name reports that it is required. */
  lemma BlankNameScenario(fs: seq<Field>)
    requires FilledWith(fs, "", "a@b.com", "Design", "Hello there, I need help")
    ensures Check(fs[0]) == Some(RequiredMessage)
    ensures forall j | 1 <= j < |fs| :: Check(fs[j]) == None
    ensures !AllPass(fs)
  {
    BlankFieldFails(fs[0]);
    forall j | 1 <= j < |fs| ensures Check(fs[j]) == None {
      if j == 1 {
        ShortAddressMatches(fs[j].value);
        AddressPasses(fs[j]);
      } else if j == 2 {
        PlainFieldPasses(fs[j], "Design");
      } else {
        MessageFieldPasses(fs[j], "Hello there, I need help");
      }
    }
  }

  /** A malformed email and a five-letter message: those two fields report, the name and service do not. */
  lemma MalformedEmailScenario(fs: seq<Field>)
    requires FilledWith(fs, "Jo", "not-an-email", "Design", "short")
    ensures Check(fs[0]) == None && Check(fs[2]) == None
    ensures Check(fs[1]) == Some(EmailMessage)
    ensures Check(fs[3]) == Some(LengthMessage)
    ensures !AllPass(fs)
  {
    PlainFieldPasses(fs[0], "Jo");
    MalformedAddressFails(fs[1]);
    PlainFieldPasses(fs[2], "Design");
    ShortMessageFails(fs[3]);
  }

  /** A complete form passes every rule. */
  lemma CompleteFormScenario(fs: seq<Field>)
    requires FilledWith(fs, "Jo", "jo@example.com", "Design", "This is a sufficiently long message")
    ensures AllPass(fs)
  {
    forall j | 0 <= j < |fs| ensures Check(fs[j]).None? {
      if j == 0 {
        PlainFieldPasses(fs[j], "Jo");
      } else if j == 1 {
        ExampleAddressMatches(fs[j].value);
        AddressPasses(fs[j]);
      } else if j == 2 {
        PlainFieldPasses(fs[j], "Design");
      } else {
        MessageFieldPasses(fs[j], "This is a sufficiently long message");
      }
    }
  }

  /**
   * A form whose fields all pass, driven through the controller: submitting
   * disables the button and shows the loading indicator until the timer
   * fires; then the fields are empty with no error shown, the modal is up and
   * the button is enabled with its label. CompleteFormScenario gives such a form.
   */
  method SubmitValidForm(form: Form)
    requires form.Valid() && !form.submitDisabled && AllPass(form.fields)
    modifies form
    ensures form.Valid() && form.modalVisible && !form.submitDisabled && form.button == Label
    ensures forall j | 0 <= j < FieldCount :: form.fields[j].value == [] && !form.fields[j].error.shown
  {
    ghost var entered := form.fields;
    form.OnSubmit();
    assert form.submitDisabled && form.button == Loading && form.completionPending;
    forall j | 0 <= j < FieldCount ensures !form.fields[j].error.shown {
      assert form.fields[j] == Validated(entered[j]) && Check(entered[j]).None?;
    }
    form.CompleteSubmission();
  }

}
