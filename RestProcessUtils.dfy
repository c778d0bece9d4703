// The error responses of the REST interface
// (de.mpg.imeji.rest.process.RestProcessUtils): which status an exception
// gets, and the JSON error object built for it.
module RestProcessUtils {
  import opened Wrappers
  import opened JavaStrings

  /** `Response.Status.fromStatusCode(..).getReasonPhrase()` of JAX-RS 2.0; nothing for a code outside the enum. */
  function ReasonPhrase(code: int): Option<string> {
    match code
    case 200 => Some("OK")
    case 201 => Some("Created")
    case 202 => Some("Accepted")
    case 204 => Some("No Content")
    case 205 => Some("Reset Content")
    case 206 => Some("Partial Content")
    case 301 => Some("Moved Permanently")
    case 302 => Some("Found")
    case 303 => Some("See Other")
    case 304 => Some("Not Modified")
    case 305 => Some("Use Proxy")
    case 307 => Some("Temporary Redirect")
    case 400 => Some("Bad Request")
    case 401 => Some("Unauthorized")
    case 402 => Some("Payment Required")
    case 403 => Some("Forbidden")
    case 404 => Some("Not Found")
    case 405 => Some("Method Not Allowed")
    case 406 => Some("Not Acceptable")
    case 407 => Some("Proxy Authentication Required")
    case 408 => Some("Request Timeout")
    case 409 => Some("Conflict")
    case 410 => Some("Gone")
    case 411 => Some("Length Required")
    case 412 => Some("Precondition Failed")
    case 413 => Some("Request Entity Too Large")
    case 414 => Some("Request-URI Too Long")
    case 415 => Some("Unsupported Media Type")
    case 416 => Some("Requested Range Not Satisfiable")
    case 417 => Some("Expectation Failed")
    case 500 => Some("Internal Server Error")
    case 501 => Some("Not Implemented")
    case 502 => Some("Bad Gateway")
    case 503 => Some("Service Unavailable")
    case 504 => Some("Gateway Timeout")
    case 505 => Some("HTTP Version Not Supported")
    case _ => None
  }

  const UnprocessableEntity: int := 422

  /** The title of an error: the reason phrase, "Unprocessable entity" for 422, else that of 500. */
  function ErrorTitle(code: int): (r: string)
    ensures ReasonPhrase(code).Some? ==> r == ReasonPhrase(code).value
    ensures ReasonPhrase(code).None? && code != UnprocessableEntity ==> r == "Internal Server Error"
    ensures r != ""
  {
    match ReasonPhrase(code)
    case Some(phrase) => phrase
    case None => if code == UnprocessableEntity then "Unprocessable entity" else "Internal Server Error"
  }

  /** The title of 422, which JAX-RS 2.0 does not know. */
  lemma ErrorTitleUnprocessable()
    ensures ErrorTitle(UnprocessableEntity) == "Unprocessable entity"
  {
  }

  /** The error object of the JSON answer (`HTTPError`). */
  datatype HttpError = HttpError(code: string, title: string, id: Option<string>,
                                 exceptionReport: Option<string>, message: string)

  datatype Error = ArrayIndexOutOfBounds

  const IdErrorMarker: string := "id_error:"

  /** The local code of an HTTP status: "1" before the status. */
  function ErrorCode(status: int): string {
    "1" + IntToString(status)
  }

  /** The status can be read back from the local code. */
  lemma ErrorCodeStatus(status: nat)
    requires status <= IntMax
    ensures var c := ErrorCode(status);
      |c| > 1 && c[0] == '1' && ParseInt(c[1..]) == Some(status)
  {
    var c := ErrorCode(status);
    assert c[1..] == NatToString(status);
    ParseNatToString(status, IntMin, IntMax);
  }

  /**
   * `buildExceptionResponse` as written: a report holding "id_error:" is
   * split there, the second piece becoming the id and the first the report;
   * when the split yields fewer than two pieces the ArrayIndexOutOfBounds
   * escapes.
   */
  function BuildExceptionResponseAsWritten(errorCode: int, e: Option<string>): (r: Result<HttpError, Error>)
  {
    var code := ErrorCode(errorCode);
    var title := ErrorTitle(errorCode);
    if !IsNullOrEmptyTrim(e) && Contains(e.value, IdErrorMarker) then
      var parts := Split(e.value, IdErrorMarker);
      if |parts| < 2 then Failure(ArrayIndexOutOfBounds)
      else Success(HttpError(code, title, Some(parts[1]), Some(parts[0]), code + "-message"))
    else Success(HttpError(code, title, None, e, code + "-message"))
  }

  /**
   * `buildExceptionResponse` as evidently intended: the same, except that a
   * report ending with its only "id_error:" gets an empty id instead of
   * failing.
   */
  function BuildExceptionResponse(errorCode: int, e: Option<string>): (r: HttpError)
    ensures r.code == ErrorCode(errorCode) && r.title == ErrorTitle(errorCode)
    ensures r.message == r.code + "-message"
    ensures IsNullOrEmptyTrim(e) || !Contains(e.value, IdErrorMarker) ==> r.id.None? && r.exceptionReport == e
    ensures BuildExceptionResponseAsWritten(errorCode, e).Success? ==> r == BuildExceptionResponseAsWritten(errorCode, e).value
  {
    var code := ErrorCode(errorCode);
    var title := ErrorTitle(errorCode);
    if !IsNullOrEmptyTrim(e) && Contains(e.value, IdErrorMarker) then
      var parts := Split(e.value, IdErrorMarker);
      var report := if |parts| == 0 then "" else parts[0];
      var id := if |parts| < 2 then "" else parts[1];
      HttpError(code, title, Some(id), Some(report), code + "-message")
    else HttpError(code, title, None, e, code + "-message")
  }

  /** The marker occurs first right after a text that does not hold it: its 'i' appears nowhere else in it. */
  lemma MarkerFirstAt(a: string, b: string)
    requires !Contains(a, IdErrorMarker)
    ensures IndexOf(a + IdErrorMarker + b, IdErrorMarker) == |a|
  {
    var s := a + IdErrorMarker + b;
    var m := IdErrorMarker;
    assert s[|a|..|a| + |m|] == m;
    forall j | 0 <= j < |a| ensures !OccursAt(s, m, j) {
      if j + |m| <= |a| {
        assert a[j..j + |m|] == s[j..j + |m|];
        if a[j..j + |m|] == m {
          ContainsAt(a, m, j);
          assert false;
        }
      } else {
        // the 'i' that starts the marker at |a| would sit inside the marker, which holds no other 'i'
        assert s[j..j + |m|][|a| - j] == s[|a|] == 'i';
        assert m[|a| - j] != 'i';
      }
    }
    IndexOfIs(s, m, |a|);
  }

  /** A report "a id_error:b" with one marker and a non-empty id gives id b and report a. */
  lemma IdErrorSplit(errorCode: int, a: string, b: string)
    requires !Contains(a, IdErrorMarker) && !Contains(b, IdErrorMarker) && b != ""
    ensures var r := BuildExceptionResponseAsWritten(errorCode, Some(a + IdErrorMarker + b));
      r.Success? && r.value.id == Some(b) && r.value.exceptionReport == Some(a)
  {
    var s := a + IdErrorMarker + b;
    MarkerSplit(a, b);
    assert Split(s, IdErrorMarker) == [a, b];
    ContainsAt(s, IdErrorMarker, |a|) by { assert s[|a|..|a| + |IdErrorMarker|] == IdErrorMarker; }
    assert !IsNullOrEmptyTrim(Some(s)) by {
      TrimBlank(s);
      assert s[|a|] == 'i';
    }
  }

  /** The fields of "a id_error:b" when neither part holds the marker. */
  lemma MarkerSplit(a: string, b: string)
    requires !Contains(a, IdErrorMarker) && !Contains(b, IdErrorMarker)
    ensures Fields(a + IdErrorMarker + b, IdErrorMarker) == [a, b]
  {
    var s := a + IdErrorMarker + b;
    MarkerFirstAt(a, b);
    assert s[..|a|] == a;
    assert s[|a| + |IdErrorMarker|..] == b;
  }

  /**
   * A report that ends with its only marker makes the code as written
   * fail, where the corrected one answers with an empty id.
   */
  lemma IdErrorAtEnd(errorCode: int, a: string)
    requires !Contains(a, IdErrorMarker)
    ensures BuildExceptionResponseAsWritten(errorCode, Some(a + IdErrorMarker)) == Failure(ArrayIndexOutOfBounds)
    ensures var r := BuildExceptionResponse(errorCode, Some(a + IdErrorMarker));
      r.id == Some("") && (a != "" ==> r.exceptionReport == Some(a))
  {
    var s := a + IdErrorMarker;
    assert s == a + IdErrorMarker + "";
    MarkerSplit(a, "");
    assert s[|a|..|a| + |IdErrorMarker|] == IdErrorMarker;
    ContainsAt(s, IdErrorMarker, |a|);
    assert !IsNullOrEmptyTrim(Some(s)) by {
      TrimBlank(s);
      assert s[|a|] == 'i';
    }
    assert DropTrailingEmpty([a, ""]) == DropTrailingEmpty([a]);
  }

  /** The JSON answer: the status and the error object. */
  datatype JsonResponse = JsonResponse(status: int, error: HttpError)

  /** `buildJSONAndExceptionResponse`. */
  function BuildJsonAndExceptionResponse(errorCode: int, e: Option<string>): (r: JsonResponse)
    ensures r.status == errorCode && r.error.code == ErrorCode(errorCode)
  {
    JsonResponse(errorCode, BuildExceptionResponse(errorCode, e))
  }

  /** The exceptions `localExceptionHandler` tells apart. */
  datatype ExceptionKind =
    | AuthenticationError | NotAllowedError | NotFoundException | UnprocessableError
    | WorkflowException | InternalServerErrorException | BadRequestException
    | ClassCastException | NotSupportedMethodException | OtherException

  /** The HTTP status of an exception. */
  function StatusOf(kind: ExceptionKind): (r: int)
    ensures r in {400, 401, 403, 404, 405, 422, 500}
  {
    match kind
    case AuthenticationError => 401
    case NotAllowedError => 403
    case NotFoundException => 404
    case UnprocessableError => UnprocessableEntity
    case WorkflowException => UnprocessableEntity
    case InternalServerErrorException => 500
    case BadRequestException => 400
    case ClassCastException => 400
    case NotSupportedMethodException => 405
    case OtherException => 500
  }

  /** Every status the handler uses has a title of its own, and only unknown failures read as server errors. */
  lemma StatusTitles(kind: ExceptionKind)
    ensures ErrorTitle(StatusOf(kind)) == "Internal Server Error" <==>
      kind == InternalServerErrorException || kind == OtherException
    ensures StatusOf(kind) == 422 ==> ErrorTitle(StatusOf(kind)) == "Unprocessable entity"
  {
  }

  /**
   * `localExceptionHandler`: the message, or the exception's localized
   * message when it is null or empty, reported under the exception's status.
   */
  function LocalExceptionHandler(kind: ExceptionKind, localizedMessage: Option<string>, message: Option<string>): (r: JsonResponse)
    ensures r.status == StatusOf(kind)
    ensures r.error.code == ErrorCode(StatusOf(kind)) && r.error.message == ErrorCode(StatusOf(kind)) + "-message"
    ensures !NullOrEmpty(message) && !Contains(message.value, IdErrorMarker) ==> r.error.exceptionReport == message
    ensures NullOrEmpty(message) && (IsNullOrEmptyTrim(localizedMessage) || !Contains(localizedMessage.value, IdErrorMarker)) ==>
      r.error.exceptionReport == localizedMessage
  {
    var m := if NullOrEmpty(message) then localizedMessage else message;
    BuildJsonAndExceptionResponse(StatusOf(kind), m)
  }
}
