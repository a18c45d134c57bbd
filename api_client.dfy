/**
 * The HTTP client's two interceptors: the request side attaches the stored session token as the
 * `satoken` header, and the response side unwraps the backend's `{ code, msg, data }` envelope,
 * resolving with the payload on code 0 and otherwise showing a toast and rejecting.
 */
module ApiClient {
  import opened Wrappers
  import opened Records
  import Decimal

  /** The header the session token travels in. */
  const TokenHeader := "satoken"

  /** The outgoing request's configuration; only its headers matter here. */
  class RequestConfig {
    var headers: map<string, string>

    constructor(headers0: map<string, string>)
      ensures headers == headers0
    {
      headers := headers0;
    }

    /**
     * The request interceptor, given what local storage holds under the token key (`None` when
     * nothing is stored): a non-empty token is written into the headers, anything else leaves
     * them as they were.
     */
    method AttachToken(stored: Option<string>)
      modifies this
      ensures headers == WithToken(old(headers), stored)
    {
      if stored.Some? && NonEmpty(stored.value) {
        headers := headers[TokenHeader := stored.value];
      }
    }
  }

  /** The headers after the request interceptor. */
  function WithToken(headers: map<string, string>, stored: Option<string>): (h: map<string, string>)
    ensures stored.Some? && NonEmpty(stored.value) ==> TokenHeader in h && h[TokenHeader] == stored.value
    ensures !(stored.Some? && NonEmpty(stored.value)) ==> h == headers
    ensures forall k :: k in headers && k != TokenHeader ==> k in h && h[k] == headers[k]
    ensures h.Keys == headers.Keys + (if stored.Some? && NonEmpty(stored.value) then {TokenHeader} else {})
  {
    if stored.Some? && NonEmpty(stored.value) then headers[TokenHeader := stored.value] else headers
  }

  /** Attaching the same stored token twice gives the headers attaching it once gives. */
  lemma AttachTwice(headers: map<string, string>, stored: Option<string>)
    ensures WithToken(WithToken(headers, stored), stored) == WithToken(headers, stored)
  {
  }

  /**
   * What reaches the response interceptor: a reply whose body is the envelope (`code` and `msg`
   * absent when the body lacks them), or a transport failure carrying the client's error.
   */
  datatype Reply<D> =
    | Received(code: Option<int>, msg: Option<string>, data: D)
    | TransportFailure(error: string)

  /** Why the returned promise rejects: a new error with a message, or the transport error itself. */
  datatype Rejection = CodeError(message: string) | Passed(error: string)

  /** The promise's settlement. */
  datatype Outcome<D> = Resolved(data: D) | Rejected(reason: Rejection)

  /** What the interceptor makes of a reply: the settlement and the toast it shows, if any. */
  datatype Handled<D> = Handled(outcome: Outcome<D>, toast: Option<Message>)

  const NetworkErrorText := "Network error, please check connection"
  const UnknownStatusText := "Unknown status"

  /** The codes that are reported as errors; every other non-zero code is a warning. */
  predicate IsErrorCode(code: int)
  {
    code == 400 || code == 401 || code == 403 || code == 500
  }

  /** The toast text for an error code without a server message. */
  function ErrorCodeText(code: int): (t: string)
    requires IsErrorCode(code)
    ensures t != UnknownStatusText && t != NetworkErrorText && NonEmpty(t)
  {
    if code == 400 then "Bad request"
    else if code == 401 then "Unauthorized access"
    else if code == 403 then "Access forbidden"
    else "Unknown error, please contact administrator"
  }

  /** `msg || fallback`. */
  function OrText(msg: Option<string>, fallback: string): (t: string)
    ensures msg.Some? && NonEmpty(msg.value) ==> t == msg.value
    ensures !(msg.Some? && NonEmpty(msg.value)) ==> t == fallback
  {
    if msg.Some? && NonEmpty(msg.value) then msg.value else fallback
  }

  /** The template `Error code: ${code}`, where an absent code prints as `undefined`. */
  function CodeText(code: Option<int>): string
  {
    "Error code: " + (if code.Some? then Decimal.IntToString(code.value) else "undefined")
  }

  /** The response interceptor, both its success and its error handler. */
  function HandleReply<D>(reply: Reply<D>): (h: Handled<D>)
    ensures h.outcome.Resolved? <==> reply.Received? && reply.code == Some(0)
    ensures h.outcome.Resolved? ==> h.outcome.data == reply.data && h.toast == None
    ensures reply.Received? && reply.code != Some(0) ==>
              h.outcome == Rejected(CodeError(OrText(reply.msg, CodeText(reply.code))))
    ensures reply.TransportFailure? ==>
              h == Handled(Rejected(Passed(reply.error)), Some(Message(Error, NetworkErrorText)))
    ensures h.toast.Some? ==> h.toast.value.severity == Error || h.toast.value.severity == Warning
  {
    match reply {
      case TransportFailure(e) =>
        Handled(Rejected(Passed(e)), Some(Message(Error, NetworkErrorText)))
      case Received(code, msg, data) =>
        if code == Some(0) then
          Handled(Resolved(data), None)
        else
          var toast :=
            if code.Some? && IsErrorCode(code.value) then Message(Error, OrText(msg, ErrorCodeText(code.value)))
            else Message(Warning, OrText(msg, UnknownStatusText));
          Handled(Rejected(CodeError(OrText(msg, CodeText(code)))), Some(toast))
    }
  }

  /** A toast is shown exactly when the request does not resolve. */
  lemma ToastIffRejected<D>(reply: Reply<D>)
    ensures HandleReply(reply).toast.Some? <==> HandleReply(reply).outcome.Rejected?
  {
  }

  /**
   * The toast of a reply is an error exactly for a transport failure or one of the four error
   * codes, and a warning exactly for any other non-zero code (an absent code included).
   */
  lemma ToastSeverity<D>(reply: Reply<D>)
    ensures var t := HandleReply(reply).toast;
            (t.Some? && t.value.severity == Error) <==>
              reply.TransportFailure? || (reply.code.Some? && IsErrorCode(reply.code.value))
    ensures var t := HandleReply(reply).toast;
            (t.Some? && t.value.severity == Warning) <==>
              reply.Received? && reply.code != Some(0) && !(reply.code.Some? && IsErrorCode(reply.code.value))
  {
  }

  /**
   * A non-empty server message wins: for a rejected code it is both the toast's text and the
   * rejection's message. Without one the toast shows the code's default text and the rejection
   * names the code.
   */
  lemma ServerMessageWins<D>(code: Option<int>, msg: Option<string>, data: D)
    requires code != Some(0)
    ensures var h := HandleReply(Received(code, msg, data));
            msg.Some? && NonEmpty(msg.value) ==>
              h.toast.Some? && h.toast.value.text == msg.value && h.outcome == Rejected(CodeError(msg.value))
    ensures var h := HandleReply(Received(code, msg, data));
            !(msg.Some? && NonEmpty(msg.value)) ==>
              && h.outcome == Rejected(CodeError(CodeText(code)))
              && h.toast.Some?
              && h.toast.value.text == (if code.Some? && IsErrorCode(code.value) then ErrorCodeText(code.value) else UnknownStatusText)
  {
  }

  /** Different codes without a server message reject with different messages. */
  lemma {:induction false} CodeTextInjective(a: Option<int>, b: Option<int>)
    requires a != b
    ensures CodeText(a) != CodeText(b)
  {
    var p := "Error code: ";
    var ta := if a.Some? then Decimal.IntToString(a.value) else "undefined";
    var tb := if b.Some? then Decimal.IntToString(b.value) else "undefined";
    if CodeText(a) == CodeText(b) {
      assert (p + ta)[|p|..] == ta;
      assert (p + tb)[|p|..] == tb;
      assert ta == tb;
      if a.Some? && b.Some? {
        Decimal.IntToStringInjective(a.value, b.value);
      } else if a.Some? {
        Decimal.IntToStringNotUndefined(a.value);
      } else {
        Decimal.IntToStringNotUndefined(b.value);
      }
    }
  }
}
