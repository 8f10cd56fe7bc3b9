/** The contact form's state and its submission workflow: field updates,
    the two validation checks, the payload handed to the email service and
    the success and failure callbacks. The email service itself is not
    modelled; its outcome is an input to the callbacks. */
module Contact {
  import opened Text
  import opened Email
  import opened Errors
  import opened Wrappers

  /** The three inputs of the form, named by their `name` attribute. */
  datatype Field = NameField | EmailField | MessageField

  /** The `form` state record. */
  datatype FormData = FormData(name: string, email: string, message: string)

  /** The record the component starts with and returns to after a
      successful send. */
  const EmptyForm := FormData("", "", "")

  /** The value of one field. */
  function Get(f: FormData, field: Field): string
  {
    match field
    case NameField => f.name
    case EmailField => f.email
    case MessageField => f.message
  }

  /** `{...form, [name]: value}`: the named field holds the new value and
      the other two fields keep theirs. */
  function Update(f: FormData, field: Field, value: string): (r: FormData)
    ensures Get(r, field) == value
    ensures forall g :: g != field ==> Get(r, g) == Get(f, g)
  {
    match field
    case NameField => f.(name := value)
    case EmailField => f.(email := value)
    case MessageField => f.(message := value)
  }

  /** Two records with the same three field values are the same record, so
      the two clauses of Update say everything about its result. */
  lemma FieldsDetermineForm(f: FormData, h: FormData)
    requires forall g :: Get(f, g) == Get(h, g)
    ensures f == h
  {
    assert Get(f, NameField) == Get(h, NameField);
    assert Get(f, EmailField) == Get(h, EmailField);
    assert Get(f, MessageField) == Get(h, MessageField);
  }

  /** A later keystroke in a field overwrites an earlier one. */
  lemma UpdateOverwrites(f: FormData, field: Field, v1: string, v2: string)
    ensures Update(Update(f, field, v1), field, v2) == Update(f, field, v2)
  {
    var a, b := Update(Update(f, field, v1), field, v2), Update(f, field, v2);
    forall g ensures Get(a, g) == Get(b, g) {
      if g != field {
        assert Get(Update(f, field, v1), g) == Get(f, g);
      }
    }
    FieldsDetermineForm(a, b);
  }

  /** The outcome of the two validation checks. */
  datatype Verdict = MissingFields | InvalidEmail | Accepted

  /** The checks in `handleSubmit`, in order: first that no field trims to
      the empty string, then that the untrimmed email matches the pattern. */
  function Validate(f: FormData): Verdict
  {
    if IsBlank(f.name) || IsBlank(f.email) || IsBlank(f.message) then MissingFields
    else if !ValidEmail(f.email) then InvalidEmail
    else Accepted
  }

  /** Some field is empty or holds only whitespace. */
  ghost predicate HasBlankField(f: FormData)
  {
    AllWhitespace(f.name) || AllWhitespace(f.email) || AllWhitespace(f.message)
  }

  /** The invariant of a form that may be sent: every field has something
      other than whitespace in it and the email, as entered, matches
      `^[^\s@]+@[^\s@]+\.[^\s@]+$`. */
  ghost predicate Submittable(f: FormData)
  {
    !HasBlankField(f) && MatchesPattern(f.email)
  }

  /** The missing-field check reports exactly the forms with a blank field,
      whatever the email looks like: it takes precedence over the email
      check. */
  lemma MissingFieldsIffBlank(f: FormData)
    ensures Validate(f) == MissingFields <==> HasBlankField(f)
  {
    BlankIffAllWhitespace(f.name);
    BlankIffAllWhitespace(f.email);
    BlankIffAllWhitespace(f.message);
  }

  /** The email check reports exactly the forms without a blank field whose
      email does not match the pattern. */
  lemma InvalidEmailIffMismatch(f: FormData)
    ensures Validate(f) == InvalidEmail <==> !HasBlankField(f) && !MatchesPattern(f.email)
  {
    MissingFieldsIffBlank(f);
    ValidEmailIffPattern(f.email);
  }

  /** Both checks pass exactly for the submittable forms. */
  lemma AcceptedIffSubmittable(f: FormData)
    ensures Validate(f) == Accepted <==> Submittable(f)
  {
    MissingFieldsIffBlank(f);
    ValidEmailIffPattern(f.email);
  }

  /** A form whose email is well formed but padded with whitespace before
      it, after it or on both sides is refused with the email message,
      although its trimmed email would pass: the pattern is tested on the
      untrimmed value. */
  lemma PaddedEmailRejected(f: FormData, pre: string, post: string)
    requires Validate(f) == Accepted
    requires pre + post != [] && AllWhitespace(pre) && AllWhitespace(post)
    ensures Validate(f.(email := pre + f.email + post)) == InvalidEmail
  {
    var e := f.email;
    var i := IndexOf(e, '@');
    var x := pre + e + post;
    assert x[|pre| + i] == '@';
    BlankIffAllWhitespace(x);
    if pre != [] {
      assert x[0] == pre[0];
    } else {
      assert x[|pre| + |e|] == post[0];
    }
  }

  /** The object handed to the email service. */
  datatype Payload = Payload(fromName: string, toName: string, fromEmail: string,
                             toEmail: string, message: string)

  /** The fixed recipient, independent of anything the user types. */
  const RecipientName := "Ahmed Kamel"
  const RecipientEmail := "ahmedkamel555556@gmail.com"

  /** The form a payload was built from. */
  function Sender(p: Payload): FormData
  {
    FormData(p.fromName, p.fromEmail, p.message)
  }

  /** The payload literal: the sender's three fields, unchanged, and the
      fixed recipient. */
  function PayloadOf(f: FormData): (p: Payload)
    ensures Sender(p) == f
    ensures p.toName == RecipientName && p.toEmail == RecipientEmail
  {
    Payload(f.name, RecipientName, f.email, RecipientEmail, f.message)
  }

  /** What a submission of a form leads to: an alert and nothing sent, or
      exactly one payload sent. */
  datatype Submission = Rejected(alert: string) | Send(payload: Payload)

  /** The decision `handleSubmit` takes for a form: a payload is sent
      exactly when the form is submittable, and it is the form's payload;
      a refusal names the missing fields when some field is blank and the
      email otherwise. */
  function Decide(f: FormData): (s: Submission)
    ensures s.Send? <==> Submittable(f)
    ensures s.Send? ==> s.payload == PayloadOf(f)
    ensures s.Rejected? ==> s.alert == if HasBlankField(f) then MissingFieldsAlert else InvalidEmailAlert
  {
    AcceptedIffSubmittable(f);
    MissingFieldsIffBlank(f);
    match Validate(f)
    case MissingFields => Rejected(MissingFieldsAlert)
    case InvalidEmail => Rejected(InvalidEmailAlert)
    case Accepted => Send(PayloadOf(f))
  }

  /** Every payload that is ever sent carries a submittable form. */
  lemma SentPayloadIsSubmittable(f: FormData)
    requires Decide(f).Send?
    ensures Submittable(Sender(Decide(f).payload))
    ensures MatchesPattern(Decide(f).payload.fromEmail)
  {
  }

  const MissingFieldsAlert := "Please fill in all fields"
  const InvalidEmailAlert := "Please enter a valid email address"
  const ThankYouAlert := "Thank you. I will get back to you as soon as possible."

  /** How the email service answered a send. */
  datatype Delivery = Delivered | Failed(error: SendError)

  /** The contact component's state: the three fields of `form` and the
      `loading` flag, which is true while a send is outstanding. */
  class ContactForm {
    var name: string
    var email: string
    var message: string
    var loading: bool

    /** The current `form` record. */
    function Form(): FormData
      reads this
    {
      FormData(name, email, message)
    }

    /** The component on mount: an empty form, nothing outstanding. */
    constructor ()
      ensures Form() == EmptyForm && !loading
    {
      name, email, message := "", "", "";
      loading := false;
    }

    /** `handleChange`: one keystroke replaces exactly the named field. */
    method Change(field: Field, value: string)
      modifies this
      ensures Form() == Update(old(Form()), field, value)
      ensures loading == old(loading)
    {
      match field
      case NameField => name := value;
      case EmailField => email := value;
      case MessageField => message := value;
    }

    /** `handleSubmit` up to the call to the email service. The submit
        button is disabled while `loading` holds, so a submission only
        starts from the idle state. A refused form leaves the state as it
        was; an accepted one sets `loading` and yields the payload to send.
        The form itself is never changed here. */
    method Submit() returns (s: Submission)
      requires !loading
      modifies this
      ensures s == Decide(old(Form()))
      ensures Form() == old(Form())
      ensures loading == s.Send?
    {
      if IsBlank(name) || IsBlank(email) || IsBlank(message) {
        return Rejected(MissingFieldsAlert);
      }
      if !ValidEmail(email) {
        return Rejected(InvalidEmailAlert);
      }
      loading := true;
      s := Send(PayloadOf(Form()));
    }

    /** The success callback: `loading` is cleared, the user is thanked and
        the form is emptied. */
    method OnSuccess() returns (alert: string)
      modifies this
      ensures !loading && Form() == EmptyForm
      ensures alert == ThankYouAlert
    {
      loading := false;
      alert := ThankYouAlert;
      name, email, message := "", "", "";
    }

    /** The failure callback: `loading` is cleared, the error is classified
        into its alert and the form is kept for another attempt. */
    method OnFailure(err: SendError) returns (alert: string)
      modifies this
      ensures !loading && Form() == old(Form())
      ensures alert == FailureAlert(err)
    {
      loading := false;
      if err.status == Some(400) {
        alert := AlertText(BadRequest);
      } else if err.status == Some(401) {
        alert := AlertText(Unauthorized);
      } else if err.status == Some(404) {
        alert := AlertText(NotFound);
      } else if err.status == Some(429) {
        alert := AlertText(RateLimited);
      } else {
        alert := AlertText(Other(Detail(err)));
      }
    }

    /** One whole submission from the idle state, with the service's answer
        given as `delivery`: it ends idle again, sends at most one payload,
        and clears the form only when a payload was sent and delivered. */
    method HandleSubmit(delivery: Delivery) returns (alert: string, sent: Option<Payload>)
      requires !loading
      modifies this
      ensures !loading
      ensures Decide(old(Form())).Rejected? ==>
        sent == None && alert == Decide(old(Form())).alert && Form() == old(Form())
      ensures Decide(old(Form())).Send? ==> sent == Some(PayloadOf(old(Form())))
      ensures Decide(old(Form())).Send? && delivery.Delivered? ==>
        alert == ThankYouAlert && Form() == EmptyForm
      ensures Decide(old(Form())).Send? && delivery.Failed? ==>
        alert == FailureAlert(delivery.error) && Form() == old(Form())
    {
      var s := Submit();
      match s
      case Rejected(a) =>
        alert, sent := a, None;
      case Send(p) =>
        sent := Some(p);
        match delivery
        case Delivered => alert := OnSuccess();
        case Failed(err) => alert := OnFailure(err);
    }
  }
}
