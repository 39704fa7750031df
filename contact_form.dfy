/**
 * The contact-form controller: four fields looked up by id, the submit
 * button (enabled or disabled, showing its label or its loading indicator),
 * the success modal, and the pending completion of a simulated submission.
 */
module ContactForm {
  import opened Wrappers
  import opened Text
  import opened Validation

  /** The fields `validateForm` walks, in its order, with the control type each one has. */
  const FieldIds: seq<string> := ["name", "email", "service", "message"]
  const FieldKinds: seq<Kind> := [TextInput, EmailInput, Select, TextArea]
  const FieldCount: nat := 4

  /** What the submit button shows: its `.btn-text` label or its `.btn-loading` indicator. */
  datatype ButtonContent = Label | Loading

  /** A field as the page first renders it: the given value, no error shown. */
  function FreshField(i: nat, required: bool, value: string): (f: Field)
    requires i < FieldCount
    ensures f.id == FieldIds[i] && f.kind == FieldKinds[i] && f.value == value
    ensures !f.error.shown && !f.highlighted
  {
    Field(FieldIds[i], FieldKinds[i], required, value, ErrorSlot("", false), false)
  }

  /** `form.reset()`: every control back to its empty default; error elements and borders stay as they are. */
  function ResetValues(fs: seq<Field>): (rs: seq<Field>)
    ensures |rs| == |fs|
    ensures forall j | 0 <= j < |fs| :: rs[j].value == [] && rs[j].(value := fs[j].value) == fs[j]
  {
    seq(|fs|, j requires 0 <= j < |fs| => fs[j].(value := ""))
  }

  /** Every field passes: the verdict of `validateForm`. */
  predicate AllPass(fs: seq<Field>) {
    forall j | 0 <= j < |fs| :: Check(fs[j]).None?
  }

  class Form {
    var fields: seq<Field>
    var submitDisabled: bool
    var button: ButtonContent
    var modalVisible: bool
    /** A simulated submission has started and its timer has not yet fired. */
    var completionPending: bool

    /**
     * The fields are the four of `validateForm`, in its order; the button is
     * disabled, and shows its loading indicator, exactly while a submission
     * is pending.
     */
    ghost predicate Valid()
      reads this
    {
      && |fields| == FieldCount
      && (forall j | 0 <= j < FieldCount :: fields[j].id == FieldIds[j] && fields[j].kind == FieldKinds[j])
      && submitDisabled == completionPending
      && (button == Loading) == completionPending
    }

    /** The page as loaded: empty fields with the given `required` attributes, nothing pending. */
    constructor (required: seq<bool>)
      requires |required| == FieldCount
      ensures Valid()
      ensures forall j | 0 <= j < FieldCount :: fields[j] == FreshField(j, required[j], "")
      ensures !submitDisabled && button == Label && !modalVisible && !completionPending
    {
      fields := seq(FieldCount, j requires 0 <= j < FieldCount => FreshField(j, required[j], ""));
      submitDisabled := false;
      button := Label;
      modalVisible := false;
      completionPending := false;
    }

    /** `clearError`: hides field i's error element and resets its border; value and error text stay. */
    method ClearError(i: nat)
      requires Valid() && i < FieldCount
      modifies this`fields
      ensures Valid()
      ensures fields == old(fields)[i := Cleared(old(fields[i]))]
      ensures !fields[i].error.shown && !fields[i].highlighted
      ensures fields[i].value == old(fields[i].value) && fields[i].error.text == old(fields[i].error.text)
    {
      fields := fields[i := Cleared(fields[i])];
    }

    /** `showError`: puts the message in field i's error element, shows it and colours the border. */
    method ShowError(i: nat, message: string)
      requires Valid() && i < FieldCount
      modifies this`fields
      ensures Valid()
      ensures fields == old(fields)[i := Shown(old(fields[i]), message)]
      ensures fields[i].error == ErrorSlot(message, true) && fields[i].highlighted
      ensures fields[i].value == old(fields[i].value)
    {
      fields := fields[i := Shown(fields[i], message)];
    }

    /**
     * `validateField` (also run when a field loses focus): clears the previous
     * error, then shows the first broken rule's message. Reports whether the
     * field passes; the error element is shown exactly when it does not.
     */
    method ValidateField(i: nat) returns (ok: bool)
      requires Valid() && i < FieldCount
      modifies this`fields
      ensures Valid()
      ensures ok <==> Passes(old(fields[i]))
      ensures fields == old(fields)[i := Validated(old(fields[i]))]
      ensures fields[i].error.shown <==> !ok
    {
      ClearError(i);
      var result := Check(fields[i]);
      match result
      case Some(message) =>
        ShowError(i, message);
        ok := false;
      case None =>
        ok := true;
    }

    /**
     * `validateForm`: validates every field, in order, without stopping at a
     * failure, so that every field's error element reflects this pass; the
     * form is valid exactly when all four fields pass.
     */
    method ValidateForm() returns (isValid: bool)
      requires Valid()
      modifies this`fields
      ensures Valid()
      ensures isValid <==> AllPass(old(fields))
      ensures forall j | 0 <= j < FieldCount :: fields[j] == Validated(old(fields[j]))
    {
      isValid := true;
      var k := 0;
      while k < FieldCount
        invariant 0 <= k <= FieldCount && Valid()
        invariant forall j | 0 <= j < k :: fields[j] == Validated(old(fields[j]))
        invariant forall j | k <= j < FieldCount :: fields[j] == old(fields[j])
        invariant isValid <==> forall j | 0 <= j < k :: Check(old(fields[j])).None?
      {
        var ok := ValidateField(k);
        if !ok {
          isValid := false;
        }
        k := k + 1;
      }
    }

    /** `submitForm`: hides the label, shows the loading indicator, disables the button and starts the timer. */
    method SubmitForm()
      requires Valid() && !completionPending
      modifies this`submitDisabled, this`button, this`completionPending
      ensures Valid()
      ensures submitDisabled && button == Loading && completionPending
    {
      button := Loading;
      submitDisabled := true;
      completionPending := true;
    }

    /**
     * The form's submit handler. The browser dispatches it only while the
     * submit button is enabled. An invalid form shows its errors and leaves
     * the button alone; a valid one starts a submission.
     */
    method OnSubmit()
      requires Valid() && !submitDisabled
      modifies this`fields, this`submitDisabled, this`button, this`completionPending
      ensures Valid()
      ensures forall j | 0 <= j < FieldCount :: fields[j] == Validated(old(fields[j]))
      ensures forall j | 0 <= j < FieldCount :: fields[j].value == old(fields[j].value)
      ensures AllPass(old(fields)) ==> submitDisabled && button == Loading && completionPending
      ensures !AllPass(old(fields)) ==> !submitDisabled && button == Label && !completionPending
    {
      var valid := ValidateForm();
      if valid {
        SubmitForm();
      }
    }

    /**
     * The timer callback of `submitForm`: resets the form, shows the success
     * modal, and gives the button back its label and its enabled state.
     */
    method CompleteSubmission()
      requires Valid() && completionPending
      modifies this`fields, this`modalVisible, this`submitDisabled, this`button, this`completionPending
      ensures Valid()
      ensures fields == ResetValues(old(fields))
      ensures forall j | 0 <= j < FieldCount :: fields[j].value == []
      ensures modalVisible && !submitDisabled && button == Label && !completionPending
    {
      fields := ResetValues(fields);
      modalVisible := true;
      button := Label;
      submitDisabled := false;
      completionPending := false;
    }

    /** Typing into field i: the new value, and (the `input` handler) its error cleared. */
    method Input(i: nat, value: string)
      requires Valid() && i < FieldCount
      modifies this`fields
      ensures Valid()
      ensures fields == old(fields)[i := Cleared(old(fields[i]).(value := value))]
      ensures fields[i].value == value && !fields[i].error.shown
    {
      fields := fields[i := fields[i].(value := value)];
      ClearError(i);
    }

    /** The close button, the OK button and a click on the backdrop all hide the modal. */
    method CloseModal()
      requires Valid()
      modifies this`modalVisible
      ensures Valid() && !modalVisible
    {
      modalVisible := false;
    }
  }

}
