/**
 * The HTTP response of a command: a session id and a value, with the HTTP
 * status chosen from the value's type, rendered as a JSON body. Errors are
 * Throwables; the server's own exceptions (UiAutomator2Exception and its
 * subclasses) carry a W3C WebDriver error code and HTTP status, as the
 * error table of section 6.6 of the W3C WebDriver Recommendation assigns them.
 */
module AppiumResponses {
  import opened Common
  import opened Json

  const HTTP_OK := 200
  const HTTP_BAD_REQUEST := 400
  const HTTP_NOT_FOUND := 404
  const HTTP_METHOD_NOT_ALLOWED := 405
  const HTTP_INTERNAL_SERVER_ERROR := 500
  /** UiAutomator2Exception.DEFAULT_ERROR_STATUS. */
  const DEFAULT_ERROR_STATUS := HTTP_INTERNAL_SERVER_ERROR

  /** The subclasses of UiAutomator2Exception the modelled code raises. */
  datatype Ui2Kind =
    | Generic                 // UiAutomator2Exception itself
    | ElementNotFound         // ElementNotFoundException
    | StaleElementReference   // StaleElementReferenceException
    | InvalidArgument         // InvalidArgumentException
    | UnsupportedSetting      // UnsupportedSettingException
    | NoSuchAttribute         // NoSuchElementAttributeException
    | SessionRemoved          // SessionRemovedException
    | InvalidSelector         // InvalidSelectorException
  {
    /** getError(): the W3C error code. */
    function Error(): string
    {
      match this
      case Generic => "unknown error"
      case ElementNotFound => "no such element"
      case StaleElementReference => "stale element reference"
      case InvalidArgument => "invalid argument"
      case UnsupportedSetting => "invalid argument"
      case NoSuchAttribute => "unknown error"
      case SessionRemoved => "invalid session id"
      case InvalidSelector => "invalid selector"
    }

    /** getHttpStatus(): the status that error code is sent with. */
    function HttpStatus(): int
    {
      match this
      case Generic => HTTP_INTERNAL_SERVER_ERROR
      case ElementNotFound => HTTP_NOT_FOUND
      case StaleElementReference => HTTP_NOT_FOUND
      case InvalidArgument => HTTP_BAD_REQUEST
      case UnsupportedSetting => HTTP_BAD_REQUEST
      case NoSuchAttribute => HTTP_INTERNAL_SERVER_ERROR
      case SessionRemoved => HTTP_NOT_FOUND
      case InvalidSelector => HTTP_BAD_REQUEST
    }
  }

  /** A thrown Throwable, by the classes the handlers tell apart. */
  datatype Throwable =
    | UiAutomator2(kind: Ui2Kind, message: Option<string>)
    | UiObjectNotFound(message: Option<string>)        // androidx.test.uiautomator.UiObjectNotFoundException
    | StaleObject(message: Option<string>)             // androidx.test.uiautomator.StaleObjectException
    | JsonError(message: Option<string>)               // org.json.JSONException
    | Other(className: string, message: Option<string>)    // any other Exception
    | JavaError(className: string, message: Option<string>) // a java.lang.Error, which `catch (Exception e)` lets through
  {
    function ClassName(): string
    {
      match this
      case UiAutomator2(_, _) => "io.appium.uiautomator2.common.exceptions.UiAutomator2Exception"
      case UiObjectNotFound(_) => "androidx.test.uiautomator.UiObjectNotFoundException"
      case StaleObject(_) => "androidx.test.uiautomator.StaleObjectException"
      case JsonError(_) => "org.json.JSONException"
      case Other(c, _) => c
      case JavaError(c, _) => c
    }

    /** Throwable.toString: the class name, then ": " and the message when there is one. */
    function ToString(): string
    {
      ClassName() + (if message.Some? then ": " + message.value else "")
    }
  }

  /** An exception of the given kind wrapping a cause: its message is the cause's toString. */
  function Wrap(kind: Ui2Kind, cause: Throwable): (t: Throwable)
    ensures t.UiAutomator2? && t.kind == kind && t.message == Some(cause.ToString())
  {
    UiAutomator2(kind, Some(cause.ToString()))
  }

  /** The value of a response: null, a JSON value, or a Throwable. */
  datatype Payload = Null | Value(json: JValue) | Thrown(error: Throwable)

  datatype AppiumResponse = AppiumResponse(sessionId: Option<string>, value: Payload, httpStatus: int)

  /**
   * The constructor: a Throwable value gives its own status when it is a
   * UiAutomator2Exception and DEFAULT_ERROR_STATUS otherwise; any other
   * value, null included, gives 200 OK. getValue returns the value as given.
   */
  function NewResponse(sessionId: Option<string>, value: Payload): (r: AppiumResponse)
    ensures r.sessionId == sessionId && r.value == value
    ensures !value.Thrown? ==> r.httpStatus == HTTP_OK
    ensures value.Thrown? && value.error.UiAutomator2? ==> r.httpStatus == value.error.kind.HttpStatus()
    ensures value.Thrown? && !value.error.UiAutomator2? ==> r.httpStatus == DEFAULT_ERROR_STATUS
  {
    var status :=
      if !value.Thrown? then HTTP_OK
      else if value.error.UiAutomator2? then value.error.kind.HttpStatus()
      else DEFAULT_ERROR_STATUS;
    AppiumResponse(sessionId, value, status)
  }

  /** Only a Throwable gives a status other than 200, and every Throwable gives an error status. */
  lemma StatusIsOkExactlyForValues(sessionId: Option<string>, value: Payload)
    ensures NewResponse(sessionId, value).httpStatus == HTTP_OK <==> !value.Thrown?
  {
    if value.Thrown? && value.error.UiAutomator2? {
      assert value.error.kind.HttpStatus() >= HTTP_BAD_REQUEST;
    }
  }

  /** JSONUtils.formatNull: null becomes JSONObject.NULL. */
  function FormatNull(v: Option<JValue>): (j: JValue)
    ensures v.None? ==> j == JNull
    ensures v.Some? ==> j == v.value
  {
    if v.None? then JNull else v.value
  }

  /**
   * formatException: {error, message, stacktrace}. A Throwable that is not a
   * UiAutomator2Exception is first wrapped in a generic one, whose message is
   * then the wrapped Throwable's toString. JSONObject.put with a null value
   * removes the key, so a UiAutomator2Exception without a message gives no
   * "message" member. The stack trace text is not modelled beyond being given.
   */
  function FormatException(error: Throwable, stacktrace: string): (j: JValue)
    ensures j.JObject?
    ensures Keys(j.members) == if error.UiAutomator2? && error.message.None? then ["error", "stacktrace"]
                               else ["error", "message", "stacktrace"]
  {
    var err := if error.UiAutomator2? then error else Wrap(Generic, error);
    var m1 := Update([], "error", JString(err.kind.Error()));
    var m2 := if err.message.Some? then Update(m1, "message", JString(err.message.value)) else m1;
    JObject(Update(m2, "stacktrace", JString(stacktrace)))
  }

  /**
   * What formatException reports: the error code of the exception, or
   * "unknown error" for any other Throwable, whose toString then becomes the
   * message; the message of a UiAutomator2Exception, absent when it has none;
   * and the stack trace.
   */
  lemma FormatExceptionFields(error: Throwable, stacktrace: string)
    ensures var m := FormatException(error, stacktrace).members;
      && Get(m, "error") == Some(JString(if error.UiAutomator2? then error.kind.Error() else Generic.Error()))
      && Get(m, "message") == (if !error.UiAutomator2? then Some(JString(error.ToString()))
                               else if error.message.Some? then Some(JString(error.message.value)) else None)
      && Get(m, "stacktrace") == Some(JString(stacktrace))
  {
    var err := if error.UiAutomator2? then error else Wrap(Generic, error);
    var m1 := Update([], "error", JString(err.kind.Error()));
    GetUpdate([], "error", JString(err.kind.Error()), "message");
    GetUpdate([], "error", JString(err.kind.Error()), "stacktrace");
    if err.message.Some? {
      var m2 := Update(m1, "message", JString(err.message.value));
      GetUpdate(m1, "message", JString(err.message.value), "error");
      GetUpdate(m1, "message", JString(err.message.value), "stacktrace");
      GetUpdate(m2, "stacktrace", JString(stacktrace), "error");
      GetUpdate(m2, "stacktrace", JString(stacktrace), "message");
    } else {
      GetUpdate(m1, "stacktrace", JString(stacktrace), "error");
      GetUpdate(m1, "stacktrace", JString(stacktrace), "message");
    }
  }

  /** The JSON object renderTo writes: {"sessionId": …, "value": …}. */
  function Body(r: AppiumResponse, stacktrace: string): (j: JValue)
    ensures j.JObject? && Keys(j.members) == ["sessionId", "value"]
  {
    var sid := FormatNull(if r.sessionId.Some? then Some(JString(r.sessionId.value)) else None);
    var value := match r.value
      case Null => JNull
      case Value(v) => v
      case Thrown(e) => FormatException(e, stacktrace);
    JObject(Update(Update([], "sessionId", sid), "value", value))
  }

  /** The fields of the HTTP response renderTo fills in. */
  class HttpResponse {
    var contentType: string
    var encoding: string
    var status: int
    var content: string

    constructor ()
      ensures contentType == "" && encoding == "" && status == 0 && content == ""
    {
      contentType, encoding, status, content := "", "", 0, "";
    }
  }

  /**
   * renderTo: content type, encoding and status always; the body text, or
   * "{}" with DEFAULT_ERROR_STATUS when building the JSON fails
   * (`jsonFails`: org.json rejects a value, which none of the modelled
   * values can make it do, so the flag stands for that failure).
   */
  method RenderTo(r: AppiumResponse, response: HttpResponse, stacktrace: string, jsonFails: bool)
    modifies response
    ensures response.contentType == "application/json" && response.encoding == "UTF-8"
    ensures !jsonFails ==> response.status == r.httpStatus && response.content == Text(Body(r, stacktrace))
    ensures jsonFails ==> response.status == DEFAULT_ERROR_STATUS && response.content == "{}"
  {
    response.contentType := "application/json";
    response.encoding := "UTF-8";
    response.status := r.httpStatus;
    if jsonFails {
      response.content := "{}";
      response.status := DEFAULT_ERROR_STATUS;
    } else {
      response.content := Text(Body(r, stacktrace));
    }
  }

  /** A rendered body names the session and holds the value: getting them back out of the JSON gives what went in. */
  lemma BodyHoldsValue(r: AppiumResponse, stacktrace: string)
    requires r.value.Value?
    ensures Get(Body(r, stacktrace).members, "value") == Some(r.value.json)
    ensures r.sessionId.Some? ==> Get(Body(r, stacktrace).members, "sessionId") == Some(JString(r.sessionId.value))
  {
    var sid := FormatNull(if r.sessionId.Some? then Some(JString(r.sessionId.value)) else None);
    GetUpdate([], "sessionId", sid, "value");
    GetUpdate(Update([], "sessionId", sid), "value", r.value.json, "sessionId");
  }
}
