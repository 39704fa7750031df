# Contact form of the Markmix Studios site, in Dafny

This project models the contact-form controller of the site's `script.js` and
proves what it does. The controller covers four fields (`name`, `email`,
`service`, `message`), the inline error element of each field, the submit
button, and the success modal. The model also covers the small page behaviours
around the form: the mobile-menu toggle, the scroll target of a navigation
link, the header's `scrolled` class and the social-link wiring.

Modules, one per concern:

- `Text` (text.dfy): the whitespace class used by both `String.prototype.trim`
  and the regex class `\s`. It is the ECMAScript WhiteSpace and LineTerminator
  set. The module also defines trimming, and `length` counted in UTF-16 code
  units. Trimming scans for the first and last characters that are not
  whitespace and keeps what lies between them, as the TrimString operation
  of ECMA-262 does.
- `Email` (email.dfy): the regular expression `^[^\s@]+@[^\s@]+\.[^\s@]+$`
  written as a predicate, `MatchesEmailPattern`. `IsEmailAddress` reads the
  same rule in plain words: exactly one `@`, not at the start, no whitespace,
  and a `.` after the `@` with a character on each side.
- `Validation` (validation.dfy): a field as a value (id, control type,
  `required`, value, error element, border highlight). `Check` is the
  `validateField` rule chain as a pure function. `Validated` is the field after
  the error element has been updated.
- `ContactForm` (contact_form.dfy): the class `Form`. Its methods are
  `clearError`, `showError`, `validateField`, the `validateForm` loop, the submit
  handler, `submitForm`, and the timer callback as an explicit
  `CompleteSubmission` step. It also models typing into a field and closing the
  modal.
- `Scenarios` (scenarios.dfy): three concrete forms (a blank name; a malformed
  email with a short message; a complete form). It also holds a full run of the
  submit lifecycle on a form that passes.
- `Page` (page.dfy): the menu, the scroll target, the header and the social links.

Behaviour the code has that a reader might not expect, which the model follows:

- The email rule runs before the required rule, so a blank required email field
  reports "Please enter a valid email address".
- The pattern accepts exactly one `@`, not "at least one".
- The length rule applies to the control whose id is `message`, whatever its type.
- Lengths are `String.prototype.length`, which counts UTF-16 code units.
- No failure state exists: the simulated submission always succeeds.

## Model

| member | source | states |
|---|---|---|
| `Text.StartIndex` | script.js:173 | the upward scan stops at the first character that is not whitespace (or the end), and everything it passed is whitespace |
| `Text.EndIndex` | script.js:173 | the downward scan stops just past the last character that is not whitespace (or at the start point), and everything it passed is whitespace |
| `Text.Trim` | script.js:173 | the trimmed value neither starts nor ends with whitespace and is no longer than the input |
| `Text.TrimSlice` | script.js:173 | the trimmed value is a slice of the input, and everything around that slice is whitespace |
| `Text.TrimUnique` | script.js:173 | any slice surrounded by whitespace and not starting or ending with it is the trimmed value, so trimming is fully determined |
| `Text.TrimIgnoresPadding` | script.js:173 | whitespace added around a value does not change its trimmed value |
| `Text.TrimIdempotent` | script.js:173 | trimming twice equals trimming once |
| `Text.Utf16Length` | script.js:193 | `length` lies between the number of code points and twice that, is 0 only for the empty string, and equals the code-point count when all are in the Basic Multilingual Plane |
| `Email.EmailPatternIff` | script.js:180-185 | the regex accepts a trimmed value iff it has exactly one `@`, not first, no whitespace, and a `.` after the `@` with a character on each side (both directions) |
| `Validation.Check` | script.js:172-199 | a field fails (returns a message) iff one of the three rules does not hold of its trimmed value; the message is one of the three texts |
| `Validation.Validated` | script.js:172-212 | after validation the error element is shown and the border coloured iff the field fails; the text is the failing rule's message; a passing field keeps its old text hidden; nothing else about the field changes |
| `Validation.ValidatedKeepsVerdict` | script.js:172-199 | a validated field validates the same way again |
| `Validation.ValidatedIdempotent` | script.js:172-199 | validating a field twice leaves it exactly as validating it once |
| `Validation.EmailRule` | script.js:180-186 | an email control reports the format error iff its trimmed value is not an address; a blank one reports the format error, not "required" |
| `Validation.RequiredRule` | script.js:188-191 | a required control with a blank trimmed value fails: with "This field is required" unless it is an email control, which reports the format error |
| `Validation.MessageLengthRule` | script.js:193-196 | the `message` control reports the length error iff it passed the earlier rules and its trimmed value has fewer than 10 UTF-16 code units |
| `Validation.CheckIgnoresPadding` | script.js:173 | surrounding whitespace never changes a field's validation result |
| `ContactForm.ResetValues` | script.js:228 | `form.reset()` empties every value and leaves everything else about each field unchanged |
| `ContactForm.Form.constructor` | script.js:63-67 | the page starts with empty fields, no error shown, the button enabled with its label, the modal hidden and nothing pending |
| `ContactForm.Form.ClearError` | script.js:208-212 | hides the field's error element and resets its border; the value, the error text and the other fields are unchanged |
| `ContactForm.Form.ShowError` | script.js:201-206 | sets the field's error text, shows it and colours the border; the value and the other fields are unchanged |
| `ContactForm.Form.ValidateField` | script.js:172-199 | returns true iff the field passes every rule; the field becomes `Validated` of its old state; the error is shown iff the result is false; the other fields are unchanged |
| `ContactForm.Form.ValidateForm` | script.js:153-170 | returns true iff all four fields pass; every field is validated, including those after a failing one |
| `ContactForm.Form.SubmitForm` | script.js:215-223 | the button is disabled and shows its loading indicator, and the completion is pending |
| `ContactForm.Form.OnSubmit` | script.js:70-76 | every field is validated and keeps its value; a passing form enters the loading, disabled, pending state; a failing one leaves the button enabled with its label and starts nothing |
| `ContactForm.Form.CompleteSubmission` | script.js:226-237 | the form is reset (every value empty), the modal is shown, and the button is enabled with its label again |
| `ContactForm.Form.Input` | script.js:85-87 | typing sets the field's value and hides its error; the other fields are unchanged |
| `ContactForm.Form.CloseModal` | script.js:92-109 | the modal is hidden |
| `Scenarios.BlankNameScenario` | script.js:153-199 | with a blank name and valid other fields, only the name fails, with "This field is required", and the form is invalid |
| `Scenarios.MalformedEmailScenario` | script.js:153-199 | with `not-an-email` and the message `short`, the email reports the format error and the message the length error; name and service pass |
| `Scenarios.CompleteFormScenario` | script.js:153-199 | the complete form passes every rule |
| `Scenarios.SubmitValidForm` | script.js:215-237 | submitting a passing form and then completing it leaves every field empty with no error shown, the modal up, and the button enabled with its label |
| `Page.Menu.Toggle` | script.js:8-18 | the menu's `active` state flips, and afterwards the icon is `fa-times` iff the menu is open and `fa-bars` iff it is closed |
| `Page.Menu.CloseFromLink` | script.js:22-28 | a navigation click closes the menu and shows the bars icon |
| `Page.ScrollTarget` | script.js:35-41 | there is a target iff the link is not `#` and its element exists; the target puts the element 20 px below the header |
| `Page.Header.constructor` | script.js:60-61 | on load, the header is `scrolled` iff the page is scrolled past 100 px |
| `Page.Header.UpdateOnScroll` | script.js:52-58 | the header is `scrolled` iff the page is scrolled past 100 px, whatever it was before |
| `Page.AssignSocialLinks` | script.js:144-150 | each of the first five links gets its profile URL, `_blank` and `noopener noreferrer`; later links are unchanged |

## Left out

- DOM lookup and event wiring (`getElementById`, `querySelector`, `addEventListener`) are left out. Fields are found by their position in `Form.fields`, and each handler is a method.
- The browser dispatches the submit handler only while the submit button is enabled. `OnSubmit` states this as a precondition.
- The `blur` handler (script.js:81-83) only calls `validateField`, which is `ValidateField`.
- The 2000 ms `setTimeout` is left out, because wall-clock time is outside the model. `CompleteSubmission` stands for the timer firing and may run only while a completion is pending.
- The `required` attributes live in the page's HTML, which is not part of this model. They are constructor parameters.
- The control types (`text`, `email`, a select, a textarea) also live in that HTML. `FieldKinds` fixes them, and the email rule reads them.
- The browser's own constraint validation is left out. Without `novalidate`, a form with a blank `required` control or a malformed `type=email` value is stopped before its `submit` event fires, so script.js:70 never runs. `OnSubmit`, `BlankNameScenario` and `MalformedEmailScenario` describe a form on which that validation does not intervene, as with `novalidate`.
- Value sanitization by the browser is left out: `Input` stores the typed value as given, though a `type=email` control strips line breaks from it.
- `form.reset()` restores each control's default value. The model takes every default to be empty, which assumes the service select's first option is an empty placeholder.
- Presentation values are abstracted. The border colour is a flag (`highlighted`), and the label/loading display swap is `ButtonContent`. Transitions and smooth scrolling are left out.
- `window.scrollTo` clamping is left out. `document.querySelector` on a link's `href` is abstracted as a map from target to `offsetTop`, so an `href` that is not a valid selector (which would throw) is not modelled.
- `scrollY` is a `real`; floating-point rounding is not modelled.
- Fields are values inside the form object rather than separate DOM objects, so aliasing between elements is not captured (the source has none).
- The fade-in IntersectionObserver, lazy image loading, service-worker registration, image preloading, the `body.loaded` timer and the image error handler (script.js:111-132, 240-296) are left out. They are browser callbacks, I/O and foreign APIs with no statable logic here.
- The `type` values in `validateForm`'s field list (script.js:155-160) are never read by the code, so they are not modelled. The control's own type drives the email rule.
