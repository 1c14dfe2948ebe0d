/**
 * ProcessNotificationAsync: the "/callback" endpoint's choice of HTTP response.
 * Request authentication and notification processing are library code outside
 * the model; their outcomes are inputs.
 */
module Webhook {

  const StatusForbidden: int := 403
  const StatusInternalServerError: int := 500

  /** A .NET exception, seen through its ToString() text. */
  datatype Exception = Exception(text: string)

  datatype HttpResponse = HttpResponse(status: int, body: string)

  /** What validating the inbound request gave: a verdict, or an exception. */
  datatype Validation = Validated(isValid: bool) | ValidationThrew(error: Exception)

  /** What the notification processor gave when it was invoked: a response, or an exception. */
  datatype Processing = Processed(response: HttpResponse) | ProcessingThrew(error: Exception)

  /** The response written, and whether the notification processor was invoked to get it. */
  datatype Result = Result(response: HttpResponse, processorInvoked: bool)

  /**
   * An invalid request is answered 403 with an empty body; a valid one with the
   * processor's response; an exception anywhere turns into 500 carrying the
   * exception text.
   */
  function ProcessNotification(validation: Validation, processing: Processing): (h: Result)
    ensures h.processorInvoked <==> validation == Validated(true)
  {
    match validation
    case ValidationThrew(e) => Result(HttpResponse(StatusInternalServerError, e.text), false)
    case Validated(false) => Result(HttpResponse(StatusForbidden, ""), false)
    case Validated(true) =>
      match processing
      case Processed(response) => Result(response, true)
      case ProcessingThrew(e) => Result(HttpResponse(StatusInternalServerError, e.text), true)
  }

  /** An invalid request gets 403 whatever the processor would have done, which it never does. */
  lemma InvalidIsForbidden(p1: Processing, p2: Processing)
    ensures ProcessNotification(Validated(false), p1).response.status == StatusForbidden
    ensures !ProcessNotification(Validated(false), p1).processorInvoked
    ensures ProcessNotification(Validated(false), p1) == ProcessNotification(Validated(false), p2)
  {
  }

  /** A valid request is answered with exactly what the processor produced. */
  lemma ValidPassesThrough(response: HttpResponse)
    ensures ProcessNotification(Validated(true), Processed(response)) == Result(response, true)
  {
  }

  /** The exception cases give 500 with the exception text. */
  lemma ExceptionIsServerError(v: Validation, p: Processing)
    requires v.ValidationThrew? || (v == Validated(true) && p.ProcessingThrew?)
    ensures var e := if v.ValidationThrew? then v.error else p.error;
      ProcessNotification(v, p).response == HttpResponse(StatusInternalServerError, e.text)
  {
  }

  /**
   * The status is 403, 500 or the processor's own; nothing else can come out.
   * A 403 the processor did not produce means the request was invalid, and a
   * 500 it did not produce means an exception was raised.
   */
  lemma StatusClassification(v: Validation, p: Processing)
    ensures var s := ProcessNotification(v, p).response.status;
      s == StatusForbidden || s == StatusInternalServerError || (p.Processed? && s == p.response.status)
    ensures (ProcessNotification(v, p).response.status == StatusForbidden &&
             !(p.Processed? && p.response.status == StatusForbidden)) ==> v == Validated(false)
    ensures (ProcessNotification(v, p).response.status == StatusInternalServerError &&
             !(p.Processed? && p.response.status == StatusInternalServerError)) ==>
            v.ValidationThrew? || (v == Validated(true) && p.ProcessingThrew?)
  {
  }
}
