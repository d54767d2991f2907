/**
 * SafeRequestHandler.handle: runs a handler's safeHandle and turns whatever
 * it throws into a response, so that handling a request never throws.
 */
module SafeRequestHandler {
  import opened Common
  import opened AppiumResponses

  /**
   * The exception a thrown Throwable is reported as: the device library's
   * not-found and stale-object exceptions and org.json's exception are
   * wrapped in the server's own; anything else is reported as it is.
   */
  function Reported(e: Throwable): (r: Throwable)
    ensures e.UiObjectNotFound? ==> r == Wrap(ElementNotFound, e)
    ensures e.StaleObject? ==> r == Wrap(StaleElementReference, e)
    ensures e.JsonError? ==> r == Wrap(InvalidArgument, e)
    ensures !(e.UiObjectNotFound? || e.StaleObject? || e.JsonError?) ==> r == e
  {
    match e
    case UiObjectNotFound(_) => Wrap(ElementNotFound, e)
    case StaleObject(_) => Wrap(StaleElementReference, e)
    case JsonError(_) => Wrap(InvalidArgument, e)
    case _ => e
  }

  /**
   * handle: the response safeHandle returned, unchanged; or a response
   * holding the reported exception. `outcome` is what safeHandle did.
   */
  function Handle(sessionId: Option<string>, outcome: Result<AppiumResponse, Throwable>): (r: AppiumResponse)
    ensures outcome.Ok? ==> r == outcome.value
    ensures outcome.Err? ==> r.sessionId == sessionId && r.value == Thrown(Reported(outcome.error))
  {
    match outcome
    case Ok(response) => response
    case Err(e) => NewResponse(sessionId, Thrown(Reported(e)))
  }

  /** A failed handler always answers with an error status, and the library exceptions with the status of the W3C error they become. */
  lemma HandleFailureStatus(sessionId: Option<string>, e: Throwable)
    ensures var r := Handle(sessionId, Err(e));
      && r.httpStatus != HTTP_OK
      && (e.UiObjectNotFound? ==> r.httpStatus == HTTP_NOT_FOUND)
      && (e.StaleObject? ==> r.httpStatus == HTTP_NOT_FOUND)
      && (e.JsonError? ==> r.httpStatus == HTTP_BAD_REQUEST)
      && (e.Other? || e.JavaError? ==> r.httpStatus == DEFAULT_ERROR_STATUS)
  {
    StatusIsOkExactlyForValues(sessionId, Thrown(Reported(e)));
  }
}
