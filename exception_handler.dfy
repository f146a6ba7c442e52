/** The exception handler's JSON rendering for API requests: an ordered
    chain of type tests that picks a message, an error code and a status. */
module ExceptionHandler {
  import opened Common

  /** The HTTP exceptions the chain tells apart. Each is an `HttpException`
      and carries its own status: `NotFoundHttpException`,
      `TooManyRequestsHttpException`, the permission package's
      `UnauthorizedException`, and any other. */
  datatype HttpKind = NotFoundHttp | TooManyRequests | PermissionDenied | OtherHttp

  /** The exception that reaches the renderer. */
  datatype Failure =
    | Unauthenticated                                   // AuthenticationException
    | Unauthorized                                      // AuthorizationException
    | ModelNotFound(model: string)                      // the model's class name
    | Invalid(errors: map<string, seq<string>>)         // ValidationException
    | Http(kind: HttpKind, status: int, message: string, headers: map<string, Json>)
    | Other(message: string)

  /** The JSON body and status of the response: `errors` only for a
      validation failure, `retryAfter` only for rate limiting. */
  datatype ErrorReply = ErrorReply(status: int, message: string, code: string,
                                   errors: Option<map<string, seq<string>>>, retryAfter: Option<int>)

  /** `errorResponse`: the message and the code, with the status. */
  function ErrorResponse(message: string, code: string, status: int): (r: ErrorReply)
    ensures r.status == status && r.message == message && r.code == code
    ensures r.errors.None? && r.retryAfter.None?
  {
    ErrorReply(status, message, code, None, None)
  }

  const RETRY_AFTER_DEFAULT: int := 60
  const INTERNAL_MESSAGE: string := "Ocorreu um erro interno. Tente novamente mais tarde."

  // ---------------------------------------------------------------
  // class_basename and the (int) cast
  // ---------------------------------------------------------------

  /** `class_basename`: the part after the last namespace separator. */
  function ClassBasename(name: string): (b: string)
    ensures '\\' !in b
    ensures '\\' !in name ==> b == name
  {
    var parts := Split(name, '\\');
    parts[|parts| - 1]
  }

  /** The decimal value of a string of digits. */
  function DecimalValue(d: string): (v: nat)
    requires AllDigits(d)
  {
    if d == [] then 0 else DecimalValue(d[..|d| - 1]) * 10 + (d[|d| - 1] as int - '0' as int)
  }

  /** The longest run of digits at the front. */
  function LeadingDigits(s: string): (d: string)
    ensures AllDigits(d) && |d| <= |s| && d == s[..|d|]
    ensures |d| < |s| ==> !IsDigit(s[|d|])
  {
    if s != [] && IsDigit(s[0]) then [s[0]] + LeadingDigits(s[1..]) else []
  }

  predicate IsSpace(c: char)
  {
    c == ' ' || c == '\t' || c == '\n' || c == '\r' || c == '\U{000B}' || c == '\U{000C}'
  }

  function DropSpaces(s: string): (r: string)
    ensures |r| <= |s| && r == s[|s| - |r|..]
    ensures r != [] ==> !IsSpace(r[0])
  {
    if s != [] && IsSpace(s[0]) then DropSpaces(s[1..]) else s
  }

  /** PHP's `(int)` of a string: leading white space, an optional sign,
      then the leading digits; 0 when there are none. */
  function StringToInt(s: string): int
  {
    var t := DropSpaces(s);
    if t != [] && (t[0] == '-' || t[0] == '+') then
      var v: int := DecimalValue(LeadingDigits(t[1..]));
      if t[0] == '-' then -v else v
    else DecimalValue(LeadingDigits(t))
  }

  /** PHP's `(int)` of a header value. */
  function JsonToInt(j: Json): int
  {
    match j
    case JNull => 0
    case JBool(b) => if b then 1 else 0
    case JInt(i) => i
    case JStr(s) => StringToInt(s)
    case JObj(f) => if f == map[] then 0 else 1
  }

  /** `(int) ($e->getHeaders()['Retry-After'] ?? 60)`. */
  function RetryAfterOf(headers: map<string, Json>): int
  {
    if IsSet(headers, "Retry-After") then JsonToInt(headers["Retry-After"]) else RETRY_AFTER_DEFAULT
  }

  /** A header written in digits reads as its number, a missing one as 60,
      and one written as an HTTP date, which starts with a letter, as 0. */
  lemma RetryAfterReadings(headers: map<string, Json>, d: string)
    ensures "Retry-After" !in headers ==> RetryAfterOf(headers) == 60
    ensures AllDigits(d) && headers == map["Retry-After" := JStr(d)] ==> RetryAfterOf(headers) == DecimalValue(d)
    ensures d != [] && IsLetter(d[0]) && headers == map["Retry-After" := JStr(d)] ==> RetryAfterOf(headers) == 0
  {
    if AllDigits(d) {
      AllDigitsLead(d);
    }
    if d != [] && IsLetter(d[0]) {
      assert DropSpaces(d) == d;
    }
  }

  lemma {:induction false} AllDigitsLead(d: string)
    requires AllDigits(d)
    ensures DropSpaces(d) == d && LeadingDigits(d) == d
  {
    if d != [] {
      AllDigitsLead(d[1..]);
    }
  }

  // ---------------------------------------------------------------
  // renderApiException
  // ---------------------------------------------------------------

  /** `renderApiException`: the type tests in source order. The permission
      package's exception is caught by the authorisation test and rate
      limiting by its own test, both before the generic HTTP test; `debug`
      is `config('app.debug')`. */
  function Rendered(e: Failure, debug: bool): ErrorReply
  {
    if e.Unauthenticated? then ErrorResponse("Não autenticado", "UNAUTHENTICATED", 401)
    else if e.Unauthorized? || (e.Http? && e.kind == PermissionDenied) then
      ErrorResponse("Você não tem permissão para realizar esta ação", "FORBIDDEN", 403)
    else if e.ModelNotFound? then ErrorResponse(ClassBasename(e.model) + " não encontrado", "NOT_FOUND", 404)
    else if e.Http? && e.kind == NotFoundHttp then ErrorResponse("Endpoint não encontrado", "NOT_FOUND", 404)
    else if e.Invalid? then ErrorReply(422, "Dados inválidos", "VALIDATION_ERROR", Some(e.errors), None)
    else if e.Http? && e.kind == TooManyRequests then
      ErrorReply(429, "Muitas requisições. Tente novamente em breve.", "TOO_MANY_REQUESTS", None, Some(RetryAfterOf(e.headers)))
    else if e.Http? then
      ErrorResponse(if Truthy(e.message) then e.message else "Erro na requisição", "HTTP_ERROR", e.status)
    else ErrorResponse(if debug then e.message else INTERNAL_MESSAGE, "INTERNAL_ERROR", 500)
  }

  /** The renderable callback: only requests under `api/` or expecting JSON
      get the JSON rendering; for the others the framework's own rendering
      applies, here `None`. */
  function ApiRendered(isApiPath: bool, expectsJson: bool, e: Failure, debug: bool): (r: Option<ErrorReply>)
    ensures r.Some? <==> isApiPath || expectsJson
    ensures r.Some? ==> r.value == Rendered(e, debug)
  {
    if isApiPath || expectsJson then Some(Rendered(e, debug)) else None
  }

  /** Each code goes with its status, whatever status the exception itself
      carries: rate limiting is always 429 and the permission package's
      refusal always 403, because their tests precede the generic one. */
  lemma CodesAndStatuses(e: Failure, debug: bool)
    ensures var r := Rendered(e, debug);
      && (r.code == "UNAUTHENTICATED" <==> e.Unauthenticated?)
      && (r.code == "FORBIDDEN" <==> e.Unauthorized? || (e.Http? && e.kind == PermissionDenied))
      && (r.code == "NOT_FOUND" <==> e.ModelNotFound? || (e.Http? && e.kind == NotFoundHttp))
      && (r.code == "VALIDATION_ERROR" <==> e.Invalid?)
      && (r.code == "TOO_MANY_REQUESTS" <==> e.Http? && e.kind == TooManyRequests)
      && (r.code == "HTTP_ERROR" <==> e.Http? && e.kind == OtherHttp)
      && (r.code == "INTERNAL_ERROR" <==> e.Other?)
      && (r.code == "UNAUTHENTICATED" ==> r.status == 401)
      && (r.code == "FORBIDDEN" ==> r.status == 403)
      && (r.code == "NOT_FOUND" ==> r.status == 404)
      && (r.code == "VALIDATION_ERROR" ==> r.status == 422)
      && (r.code == "TOO_MANY_REQUESTS" ==> r.status == 429)
      && (r.code == "HTTP_ERROR" ==> r.status == e.status)
      && (r.code == "INTERNAL_ERROR" ==> r.status == 500)
  {
  }

  /** Only a validation failure carries its errors, verbatim, and only rate
      limiting carries `retryAfter`, 60 when the header is missing. */
  lemma ExtraFields(e: Failure, debug: bool)
    ensures var r := Rendered(e, debug);
      && (r.errors.Some? <==> e.Invalid?)
      && (e.Invalid? ==> r.errors == Some(e.errors))
      && (r.retryAfter.Some? <==> e.Http? && e.kind == TooManyRequests)
      && (e.Http? && e.kind == TooManyRequests && "Retry-After" !in e.headers ==> r.retryAfter == Some(60))
  {
  }

  /** An unexpected exception shows its message only in debug mode; an HTTP
      exception keeps its own message unless it is empty. */
  lemma MessagesShown(e: Failure, debug: bool)
    ensures e.Other? && debug ==> Rendered(e, debug).message == e.message
    ensures e.Other? && !debug ==> Rendered(e, debug).message == INTERNAL_MESSAGE
    ensures e.Http? && e.kind == OtherHttp ==>
      (Rendered(e, debug).message == e.message <==> Truthy(e.message))
    ensures e.ModelNotFound? && '\\' !in e.model ==> Rendered(e, debug).message == e.model + " não encontrado"
  {
  }

  /** Unlike every other branch, the debug flag changes only the message of
      an unexpected exception. */
  lemma DebugOnlyShowsMessage(e: Failure)
    ensures Rendered(e, true).status == Rendered(e, false).status
    ensures Rendered(e, true).code == Rendered(e, false).code
    ensures !e.Other? ==> Rendered(e, true) == Rendered(e, false)
  {
  }
}
