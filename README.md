# Contact form submission, modelled in Dafny

This project models the logic of the portfolio site's contact form
(`src/components/Contact.jsx`). The form holds three fields, `name`,
`email` and `message`, and a `loading` flag. Typing replaces one field.
Submitting runs two checks in order. The first asks whether any field is
blank after `trim()`. The second tests the untrimmed email against
`^[^\s@]+@[^\s@]+\.[^\s@]+$`. When both pass, `loading` is set and a fixed
payload goes to the email service. The service's answer comes back through
one of two callbacks. On success the form is cleared; on failure it is kept
and the error is classified into an alert by its status code.

Files, one module each:

- `wrappers.dfy` (`Wrappers`): the `Option` type.
- `text.dfy` (`Text`): the whitespace set shared by `trim()` and `\s`;
  `TrimStart`, `TrimEnd` and `Trim` over counts of leading and trailing
  whitespace; blankness.
- `email.dfy` (`Email`): the email pattern written two ways. `MatchesPattern`
  follows the regular expression's shape: three runs of `[^\s@]` joined by
  `@` and `.`. `ValidEmail` is the explicit test: no whitespace, exactly one
  `@`, a non-empty local part, and a `.` inside the domain. A lemma proves
  the two agree on every string.
- `errors.dfy` (`Errors`): the failure object, its classification into five
  kinds, and the alert text of each kind.
- `contact.dfy` (`Contact`): the form record, field update, validation, the
  payload, and the class `ContactForm` with the component's state and the
  methods `Change`, `Submit`, `OnSuccess`, `OnFailure` and `HandleSubmit`.

The whitespace predicate lists the ECMAScript WhiteSpace and LineTerminator
code points, which is exactly what both `String.prototype.trim` and the
regular-expression class `\s` use. No proof depends on that list except for
the facts that `@` and `.` are not whitespace.

Two facts about the code are worth stating plainly:

- The pattern admits exactly one `@`, because none of its three runs may
  contain one.
- Four status codes (400, 401, 404, 429) have an alert of their own; every
  other status, and a missing one, gets one generic alert.

## Model

| member | source | states |
|---|---|---|
| `Text.LeadingWhitespace` | src/components/Contact.jsx:33 | the count of leading characters `trim()` removes: all of them are whitespace and the next character, if any, is not |
| `Text.TrailingWhitespace` | src/components/Contact.jsx:33 | the count of trailing characters `trim()` removes: all of them are whitespace and the character before them, if any, is not |
| `Text.Trim` | src/components/Contact.jsx:33 | `trim()` returns the slice of the input that starts right after the leading whitespace; everything after the slice is whitespace; the slice neither starts nor ends with whitespace |
| `Text.IsBlank` | src/components/Contact.jsx:33 | `!x.trim()`; no contract of its own; described by `BlankIffAllWhitespace` |
| `Text.BlankIffAllWhitespace` | src/components/Contact.jsx:33 | `!x.trim()` holds exactly when every character of `x` is whitespace, the empty string included |
| `Email.MatchesPattern` | src/components/Contact.jsx:39 | the regular expression `^[^\s@]+@[^\s@]+\.[^\s@]+$` as the three-run shape; no contract of its own; tied to `ValidEmail` by `ValidEmailIffPattern` |
| `Email.ValidEmail` | src/components/Contact.jsx:39-40 | the executable test for the pattern; no contract of its own; described by `ValidEmailMatchesPattern`, `PatternIsValidEmail` and `ValidEmailIffPattern` |
| `Email.ValidEmailMatchesPattern` | src/components/Contact.jsx:39-40 | every string the explicit test accepts splits into `[^\s@]+` `@` `[^\s@]+` `.` `[^\s@]+` |
| `Email.PatternIsValidEmail` | src/components/Contact.jsx:39-40 | every string of that shape has no whitespace, exactly one `@` with a non-empty part before it, and a domain with an inner `.` |
| `Email.ValidEmailIffPattern` | src/components/Contact.jsx:39-40 | the explicit test and the regular expression accept the same strings, in both directions |
| `Errors.Detail` | src/components/Contact.jsx:92 | the detail embedded in the generic alert: never empty; the text if it is non-empty, else the message if that is non-empty, else the fallback |
| `Errors.Classify` | src/components/Contact.jsx:83-93 | a specific kind is chosen exactly when the status is 400, 401, 404 or 429, and that kind stands for the very status received; any other or absent status gives the generic kind carrying the detail |
| `Errors.AlertText` | src/components/Contact.jsx:84-92 | the five alert strings; no contract of its own; described by `AlertTextInjective` |
| `Errors.FailureAlert` | src/components/Contact.jsx:83-93 | the alert the failure callback shows; no contract of its own; described by `SameAlertIffSameKind` and `KnownStatusIgnoresText` |
| `Errors.AlertTextInjective` | src/components/Contact.jsx:83-93 | different kinds give different alerts, and two generic alerts agree only when their details agree |
| `Errors.SameAlertIffSameKind` | src/components/Contact.jsx:83-93 | two failures show the same alert exactly when they are classified the same |
| `Errors.KnownStatusIgnoresText` | src/components/Contact.jsx:83-90 | for a known status, the alert depends on the status alone and not on `text` or `message` |
| `Contact.Update` | src/components/Contact.jsx:19-27 | the named field holds the new value; the other two fields keep their old values |
| `Contact.UpdateOverwrites` | src/components/Contact.jsx:23-26 | a later change to a field replaces an earlier one |
| `Contact.Validate` | src/components/Contact.jsx:33-43 | the two checks in order; no contract of its own; described by `MissingFieldsIffBlank`, `InvalidEmailIffMismatch` and `AcceptedIffSubmittable` |
| `Contact.MissingFieldsIffBlank` | src/components/Contact.jsx:33-36 | the missing-field outcome occurs exactly when some field is empty or whitespace-only, whatever the email looks like, so it takes precedence over the email check |
| `Contact.InvalidEmailIffMismatch` | src/components/Contact.jsx:39-43 | the invalid-email outcome occurs exactly when no field is blank and the email does not match the regular expression |
| `Contact.AcceptedIffSubmittable` | src/components/Contact.jsx:33-45 | both checks pass exactly when no field is blank and the untrimmed email matches the regular expression |
| `Contact.PaddedEmailRejected` | src/components/Contact.jsx:33-43 | an accepted form becomes an invalid-email form when whitespace is added before its email, after it, or on both sides, because the pattern is tested on the untrimmed value |
| `Contact.PayloadOf` | src/components/Contact.jsx:52-58 | the payload carries the form's name, email and message unchanged, and a recipient name and address that are fixed constants |
| `Contact.Decide` | src/components/Contact.jsx:33-58 | a payload is sent exactly when the form is submittable, and then it is the form's payload; a refusal shows the missing-field alert when a field is blank and the email alert otherwise |
| `Contact.SentPayloadIsSubmittable` | src/components/Contact.jsx:33-58 | every payload sent carries a submittable form, with an email matching the pattern |
| `Contact.ContactForm.constructor` | src/components/Contact.jsx:11-17 | the component starts with three empty fields and `loading` false |
| `Contact.ContactForm.Change` | src/components/Contact.jsx:19-27 | the form becomes `Update` of the old form for that field; `loading` is unchanged |
| `Contact.ContactForm.Submit` | src/components/Contact.jsx:29-60 | the outcome is `Decide` of the form; the form is unchanged; `loading` becomes true exactly when a payload is sent |
| `Contact.ContactForm.OnSuccess` | src/components/Contact.jsx:62-70 | `loading` becomes false, the thank-you alert is shown, and the form is reset to three empty strings |
| `Contact.ContactForm.OnFailure` | src/components/Contact.jsx:72-93 | `loading` becomes false, the form is unchanged, and the alert is the classification of the error |
| `Contact.ContactForm.HandleSubmit` | src/components/Contact.jsx:29-95 | one submission from idle returns to idle and sends at most one payload. A refusal changes nothing. A delivered send clears the form; a failed send keeps it |

## Left out

- The call to `emailjs.send` and its promise (lines 48-60) are a third-party network call. The model only has the service's answer: `Delivery` is an input to `HandleSubmit`, and `OnSuccess` and `OnFailure` can be called directly. The service, template and key identifiers belong to that call and are left out with it.
- `alert` and the `console.log`/`console.error` calls are not modelled as output. Each alert's text is returned as a value. Logging has no effect on the state.
- Contact.ContactForm.Submit: requires `!loading` rather than modelling a repeated call. `handleSubmit` itself never reads `loading`. The only guard against a second send is the button's `disabled={loading}` (line 153).
- Contact.ContactForm.HandleSubmit: runs the submission and its callback back to back. In the component the user can still type while a send is outstanding. Such edits are `Change` calls between `Submit` and a callback, and those three methods' contracts cover them. The source sets no timeout, so a send whose promise never settles leaves `loading` true and the submit control disabled for good; the model expresses this as `Submit` with no callback after it, and `HandleSubmit` returns to idle only because a `Delivery` is always supplied.
- `handleChange` with an input `name` other than the three fields would add a new key to the record. The form only has inputs named `name`, `email` and `message` (lines 118, 130, 142), so `Field` has exactly those three values.
- The browser's own form validation is not modelled. The `required` attributes (lines 123, 135, 147) and `type='email'` (line 129) let the browser cancel the submit before `handleSubmit` runs, for an empty field or an email it considers malformed, and an email input strips leading and trailing ASCII whitespace from its value. The model describes `handleSubmit` as called: the missing-field outcome for an empty field, and the ASCII-space cases of `Contact.PaddedEmailRejected`, are what `handleSubmit` does when it receives such a form, not necessarily what a browser user can reach.
- React's batching of state updates, re-rendering, styling, the button label and `framer-motion` and `EarthCanvas` are presentation only.
- `src/components/Hero.jsx` is markup and animation with no logic, so it is not modelled.
- The failure object is modelled with a numeric `status` and string `text` and `message` fields. The strict `===` comparison and JavaScript truthiness are written out for those types only. A non-numeric status, non-string text, or a rejection value that is not an object is not modelled.
- General regular-expression matching is not modelled: only the one fixed pattern is, as a predicate on strings.
