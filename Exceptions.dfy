/** The JSON error responses of utils/exceptions.py and the bottle error handler. */
module Exceptions {
  import opened Wrappers
  import opened Http
  import Settings

  /** The classes JSONResponseError, JSONResponseNotAllowed, JSONResponseNotFound,
      JSONResponseNotAuthenticated, JSONResponseBadRequest and JSONResponseJWTError. */
  datatype ErrorClass = ResponseError | NotAllowed | NotFound | NotAuthenticated | BadRequest | JwtError

  /** The class attribute `default_status`. */
  function DefaultStatus(c: ErrorClass): int {
    match c
    case ResponseError => 500
    case NotAllowed => 405
    case NotFound => 404
    case NotAuthenticated => 401
    case BadRequest => 400
    case JwtError => 401
  }

  /** An error response: a JSON response that also remembers the exception and the
      traceback it was built with. */
  datatype HttpError = HttpError(
    status: int,
    body: Body,
    contentType: string,
    exception: Option<string>,
    traceback: Option<string>)
  {
    /** Raising an error response makes bottle send it as it is. */
    function AsResponse(): Response {
      Response(status, body, contentType)
    }
  }

  /** JSONResponseError.__init__ as inherited by each class: the given status when it is
      truthy, otherwise the class default; Content-Type is always application/json. */
  function NewError(c: ErrorClass, status: Option<int>, body: Body,
                    exception: Option<string>, traceback: Option<string>): (e: HttpError)
    ensures Truthy(status) ==> e.status == status.value
    ensures !Truthy(status) ==> e.status == DefaultStatus(c)
    ensures e.contentType == JsonContentType
    ensures e.body == body && e.exception == exception && e.traceback == traceback
  {
    HttpError(if Truthy(status) then status.value else DefaultStatus(c),
              body, JsonContentType, exception, traceback)
  }

  const NotProvidedMessage: string := "Authentication credentials were not provided."

  /** The body every JSONResponseJWTError carries. */
  const NotProvidedBody: Body := Doc(JObj(map["detail" := JStr(NotProvidedMessage)]))

  /** JSONResponseJWTError(exception, traceback): status and body are fixed whatever is passed. */
  function JwtErrorOf(exception: Option<string>, traceback: Option<string>): (e: HttpError)
    ensures e.status == 401 && e.body == NotProvidedBody && e.contentType == JsonContentType
    ensures e.exception == exception && e.traceback == traceback
  {
    NewError(JwtError, Some(401), NotProvidedBody, exception, traceback)
  }

  /** `raise JSONResponseJWTError`: the error raised by every failed check of the gate. */
  function JwtErrorRaised(): HttpError {
    JwtErrorOf(None, None)
  }

  /** `raise JSONResponseBadRequest`: status 400 and the empty body. */
  function BadRequestRaised(): (e: HttpError)
    ensures e.status == 400 && e.body == Empty
  {
    NewError(BadRequest, None, Empty, None, None)
  }

  /** JSONResponseBadRequest(body=data). */
  function BadRequestWith(body: Json): (e: HttpError)
    ensures e.status == 400 && e.body == Doc(body) && e.contentType == JsonContentType
  {
    NewError(BadRequest, None, Doc(body), None, None)
  }

  /** A traceback is truthy when it is present and not the empty string. */
  predicate TracebackTruthy(t: Option<string>) {
    t.Some? && t.value != ""
  }

  /** Why handle_http_errors itself fails: in debug mode it puts the exception object into
      the dictionary it dumps, and json.dumps refuses it (TypeError). */
  datatype HandlerFault = ExceptionNotSerializable

  /** handle_http_errors: `detail` is the error body when that is non-empty, else the status;
      in debug mode the exception and traceback are added when present, and the exception
      makes the dump fail. */
  function HandleHttpErrors(error: HttpError, debug: bool): (r: Result<Response, HandlerFault>)
    ensures r.Failure? <==> debug && error.exception.Some?
    ensures r.Success? && error.status != 0 ==> r.value.status == error.status
    ensures r.Success? ==> r.value.contentType == JsonContentType
    ensures r.Success? ==> r.value.body.Doc? && r.value.body.json.JObj?
    ensures r.Success? ==> "detail" in r.value.body.json.fields
    ensures r.Success? && error.body.Doc? ==> r.value.body.json.fields["detail"] == JText(error.body.json)
    ensures r.Success? && error.body.Text? && error.body.s != "" ==>
              r.value.body.json.fields["detail"] == JStr(error.body.s)
    ensures r.Success? && !BodyTruthy(error.body) ==> r.value.body.json.fields["detail"] == JInt(error.status)
    ensures r.Success? ==> (("traceback" in r.value.body.json.fields) <==> debug && TracebackTruthy(error.traceback))
    ensures r.Success? && "traceback" in r.value.body.json.fields ==>
              r.value.body.json.fields["traceback"] == JStr(error.traceback.value)
    ensures r.Success? ==> r.value.body.json.fields.Keys <= {"detail", "traceback"}
  {
    if debug && error.exception.Some? then
      Failure(ExceptionNotSerializable)
    else
      var text :=
        if !BodyTruthy(error.body) then JInt(error.status)
        else if error.body.Doc? then JText(error.body.json)
        else JStr(error.body.s);
      var detail := map["detail" := text];
      var data :=
        if debug && TracebackTruthy(error.traceback) then detail["traceback" := JStr(error.traceback.value)]
        else detail;
      Success(JsonResponse(Doc(JObj(data)), Some(error.status), 200))
  }

  /** The handler as installed: DEBUG comes from the settings, and with it off the
      handler always answers, with `detail` and nothing else. */
  function HandleHttpErrorsDefault(error: HttpError): (r: Response)
    ensures HandleHttpErrors(error, Settings.Debug) == Success(r)
    ensures r.body.Doc? && r.body.json.JObj? && r.body.json.fields.Keys == {"detail"}
    ensures error.status != 0 ==> r.status == error.status
  {
    HandleHttpErrors(error, Settings.Debug).value
  }

  /** The content type of bottle's own error responses. */
  const BottleContentType: string := "text/html; charset=UTF-8"

  /** HTTPError(status, text, exception, traceback) as bottle raises it itself: a plain-text
      body, for instance "Not found: '/x'" (404) or "Method not allowed." (405). */
  function BottleError(status: int, text: string, exception: Option<string>, traceback: Option<string>): HttpError {
    HttpError(status, Text(text), BottleContentType, exception, traceback)
  }

  const InternalErrorMessage: string := "Internal Server Error"

  /** What bottle's catch-all builds when an exception escapes a route: a 500 carrying the
      exception (described by `exception`) and the formatted traceback. */
  function InternalServerError(exception: string, traceback: string): HttpError {
    BottleError(500, InternalErrorMessage, Some(exception), Some(traceback))
  }

  /** The body of the answer to an escaped exception. */
  const InternalErrorBody: Body := Doc(JObj(map["detail" := JStr(InternalErrorMessage)]))

  /** Every class's default, as the class attributes declare them. */
  lemma DefaultStatuses()
    ensures NewError(ResponseError, None, Empty, None, None).status == 500
    ensures NewError(NotAllowed, None, Empty, None, None).status == 405
    ensures NewError(NotFound, None, Empty, None, None).status == 404
    ensures NewError(NotAuthenticated, None, Empty, None, None).status == 401
    ensures NewError(BadRequest, None, Empty, None, None).status == 400
    ensures NewError(JwtError, None, Empty, None, None).status == 401
  {
  }

  /** A status of 0 is falsy, so it falls back to the default like None. */
  lemma ZeroStatusIsDefault(c: ErrorClass, body: Body)
    ensures NewError(c, Some(0), body, None, None) == NewError(c, None, body, None, None)
  {
  }

  /** The JWT error is the same response whatever exception and traceback it is given. */
  lemma JwtErrorIgnoresArguments(e1: Option<string>, t1: Option<string>, e2: Option<string>, t2: Option<string>)
    ensures JwtErrorOf(e1, t1).AsResponse() == JwtErrorOf(e2, t2).AsResponse()
    ensures JwtErrorOf(e1, t1).AsResponse() == Response(401, NotProvidedBody, JsonContentType)
  {
  }

  /** bottle's own errors without an exception (404, 405 and the like) are answered with
      their status and their text as `detail`, in debug mode too when there is no traceback. */
  lemma HandlerAnswersBottleErrors(status: int, text: string, debug: bool)
    requires status != 0 && text != ""
    ensures HandleHttpErrors(BottleError(status, text, None, None), debug)
            == Success(Response(status, Doc(JObj(map["detail" := JStr(text)])), JsonContentType))
  {
    var r := HandleHttpErrors(BottleError(status, text, None, None), debug).value;
    assert r.body.json.fields.Keys == {"detail"};
  }

  /** An exception that escapes a route is answered 500 `{"detail": "Internal Server Error"}`
      with DEBUG off; with DEBUG on the handler itself fails on the exception object. */
  lemma InternalErrorAnswer(exception: string, traceback: string)
    ensures HandleHttpErrorsDefault(InternalServerError(exception, traceback))
            == Response(500, InternalErrorBody, JsonContentType)
    ensures HandleHttpErrors(InternalServerError(exception, traceback), true) == Failure(ExceptionNotSerializable)
  {
    var r := HandleHttpErrorsDefault(InternalServerError(exception, traceback));
    assert r.body.json.fields == map["detail" := JStr(InternalErrorMessage)];
  }
}
