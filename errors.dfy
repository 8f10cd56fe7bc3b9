/** Classification of a failed send into the alert the user sees. */
module Errors {
  import opened Wrappers

  /** What the email SDK rejects with: an optional numeric `status` and
      optional `text` and `message` strings. */
  datatype SendError = SendError(status: Option<int>, text: Option<string>, message: Option<string>)

  /** The outcome classes the failure callback distinguishes. */
  datatype FailureKind =
    | BadRequest
    | Unauthorized
    | NotFound
    | RateLimited
    | Other(detail: string)

  /** A JavaScript string value is truthy when it is present and not empty. */
  predicate Truthy(o: Option<string>)
  {
    o.Some? && o.value != []
  }

  /** The status codes that have an alert of their own. */
  const KnownStatuses: set<int> := {400, 401, 404, 429}

  /** `error.text || error.message || 'Unknown error'`: the first truthy
      one of the two strings, else the fixed fallback; never empty. */
  function Detail(e: SendError): (r: string)
    ensures r != []
    ensures Truthy(e.text) ==> r == e.text.value
    ensures !Truthy(e.text) && Truthy(e.message) ==> r == e.message.value
    ensures !Truthy(e.text) && !Truthy(e.message) ==> r == "Unknown error"
  {
    if Truthy(e.text) then e.text.value
    else if Truthy(e.message) then e.message.value
    else "Unknown error"
  }

  /** The HTTP status a specific failure kind stands for. */
  function StatusCode(k: FailureKind): (code: int)
    requires !k.Other?
    ensures code in KnownStatuses
  {
    match k
    case BadRequest => 400
    case Unauthorized => 401
    case NotFound => 404
    case RateLimited => 429
  }

  /** The `if/else` chain on `error.status`. A specific kind is chosen
      exactly when the status is one of the four known codes, and that kind
      stands for the very code received; otherwise the generic kind carries
      the best available error text. */
  function Classify(e: SendError): (k: FailureKind)
    ensures !k.Other? <==> e.status.Some? && e.status.value in KnownStatuses
    ensures !k.Other? ==> e.status == Some(StatusCode(k))
    ensures k.Other? ==> k.detail == Detail(e)
  {
    if e.status == Some(400) then BadRequest
    else if e.status == Some(401) then Unauthorized
    else if e.status == Some(404) then NotFound
    else if e.status == Some(429) then RateLimited
    else Other(Detail(e))
  }

  const GenericPrefix := "Something went wrong: "
  const GenericSuffix := ". Please try again."

  /** The alert text for each kind. Each fixed text is written as its
      opening words followed by the rest of the sentence: the verifier does
      not index into a string literal of this length, so the opening words
      are kept as a literal of their own that it can compare. */
  function AlertText(k: FailureKind): string
  {
    match k
    case BadRequest => "Bad request" + ". Please check your form data and try again."
    case Unauthorized => "Unauthorized" + ". Please check your EmailJS configuration."
    case NotFound => "Service or template not found" + ". Please check your EmailJS IDs."
    case RateLimited => "Too many requests" + ". Please wait a moment and try again."
    case Other(d) => GenericPrefix + d + GenericSuffix
  }

  /** The alert the failure callback shows for a rejected send. */
  function FailureAlert(e: SendError): string
  {
    AlertText(Classify(e))
  }

  /** Different kinds give different alerts, so the alert tells the user
      which failure occurred, and for the generic kind which detail. */
  lemma AlertTextInjective(k1: FailureKind, k2: FailureKind)
    requires AlertText(k1) == AlertText(k2)
    ensures k1 == k2
  {
    var t := AlertText(k1);
    if k1.Other? && k2.Other? {
      var n := |GenericPrefix|;
      assert |k1.detail| == |k2.detail|;
      assert k1.detail == t[n..n + |k1.detail|];
      assert k2.detail == t[n..n + |k2.detail|];
    } else {
      OpeningLetters(k1);
      OpeningLetters(k2);
    }
  }

  /** The first two letters of every alert; they tell the five kinds
      apart. */
  lemma OpeningLetters(k: FailureKind)
    ensures |AlertText(k)| >= 2
    ensures k.BadRequest? ==> AlertText(k)[0] == 'B'
    ensures k.Unauthorized? ==> AlertText(k)[0] == 'U'
    ensures k.NotFound? ==> AlertText(k)[0] == 'S' && AlertText(k)[1] == 'e'
    ensures k.RateLimited? ==> AlertText(k)[0] == 'T'
    ensures k.Other? ==> AlertText(k)[0] == 'S' && AlertText(k)[1] == 'o'
  {
    match k
    case BadRequest =>
    case Unauthorized =>
    case NotFound =>
    case RateLimited =>
    case Other(d) => assert AlertText(k)[..2] == GenericPrefix[..2];
  }

  /** Two rejected sends show the same alert exactly when they fall in the
      same class: for a known status, exactly when the statuses agree. */
  lemma SameAlertIffSameKind(e1: SendError, e2: SendError)
    ensures FailureAlert(e1) == FailureAlert(e2) <==> Classify(e1) == Classify(e2)
  {
    if FailureAlert(e1) == FailureAlert(e2) {
      AlertTextInjective(Classify(e1), Classify(e2));
    }
  }

  /** For a known status the alert depends on the status alone, not on
      the error text. */
  lemma KnownStatusIgnoresText(e1: SendError, e2: SendError)
    requires e1.status == e2.status
    requires e1.status.Some? && e1.status.value in KnownStatuses
    ensures FailureAlert(e1) == FailureAlert(e2)
  {
  }
}
