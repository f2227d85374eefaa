/**
 * The classification performed by the express error middleware
 * (backend/src/middleware/errorHandler.ts): from the fields of a thrown
 * error, the deployment environment and the request id header to the HTTP
 * status and the JSON body sent back; plus the 404 body and `createError`.
 * Logging, the timestamp and the response object are I/O and are not
 * modelled.
 */
module ErrorHandler {
  import opened Wrappers

  /**
   * The runtime value of `error.code`: absent, a string (what the
   * `AppError` interface declares), or a number (what the MongoDB driver
   * actually puts there, e.g. 11000 for a duplicate key).
   */
  datatype CodeValue = NoCode | StrCode(s: string) | NumCode(n: int)

  /** JavaScript truthiness of a code: `undefined`, `''` and `0` are falsy. */
  predicate CodeTruthy(c: CodeValue) {
    match c
    case NoCode => false
    case StrCode(s) => s != ""
    case NumCode(n) => n != 0
  }

  /**
   * A thrown error as the handler sees it.  `statusCode` is absent or a
   * number (0 is falsy); `message` is always a string, as on every `Error`.
   */
  datatype AppError = AppError(
    name: string,
    message: string,
    statusCode: Option<int>,
    code: CodeValue,
    isOperational: Option<bool>)

  /** The JSON body and the status of an error response; the timestamp is left out. */
  datatype ErrorResponse = ErrorResponse(
    status: int,
    success: bool,
    error: string,
    code: Option<CodeValue>,
    requestId: Option<string>)

  const DefaultStatus := 500
  const DefaultMessage := "Internal Server Error"
  const DefaultCode := "INTERNAL_ERROR"
  const ProductionMessage := "Something went wrong"
  const DuplicateKeyCode := 11000

  /** The error names the handler recognises. */
  predicate IsNamedClass(e: AppError) {
    || e.name == "ValidationError"
    || e.name == "UnauthorizedError" || e.name == "JsonWebTokenError"
    || e.name == "CastError"
    || (e.name == "MongoError" && e.code == NumCode(DuplicateKeyCode))
  }

  /** `error.statusCode || 500`. */
  function OwnStatus(e: AppError): (s: int)
    ensures s != 0
    ensures e.statusCode.Some? && e.statusCode.value != 0 ==> s == e.statusCode.value
    ensures !(e.statusCode.Some? && e.statusCode.value != 0) ==> s == DefaultStatus
  {
    if e.statusCode.Some? && e.statusCode.value != 0 then e.statusCode.value else DefaultStatus
  }

  /** `error.message || 'Internal Server Error'`. */
  function OwnMessage(e: AppError): (m: string)
    ensures m != ""
    ensures e.message != "" ==> m == e.message
    ensures e.message == "" ==> m == DefaultMessage
  {
    if e.message != "" then e.message else DefaultMessage
  }

  /** `error.code || 'INTERNAL_ERROR'`. */
  function OwnCode(e: AppError): (c: CodeValue)
    ensures CodeTruthy(c)
    ensures CodeTruthy(e.code) ==> c == e.code
    ensures !CodeTruthy(e.code) ==> c == StrCode(DefaultCode)
  {
    if CodeTruthy(e.code) then e.code else StrCode(DefaultCode)
  }

  /**
   * `ErrorHandler.handle`.  `nodeEnv` is `process.env.NODE_ENV` and
   * `requestId` the `x-request-id` header, each absent or a string.
   */
  function Handle(e: AppError, nodeEnv: Option<string>, requestId: Option<string>): (r: ErrorResponse)
    ensures !r.success
    ensures r.status != 0 && r.error != ""
    ensures r.code.Some? && CodeTruthy(r.code.value)
    ensures r.requestId.Some? <==> requestId.Some? && requestId.value != ""
    ensures r.requestId.Some? ==> r.requestId == requestId
    ensures nodeEnv == Some("production") && r.status == 500 ==> r.error == ProductionMessage
  {
    var (status, message, code) :=
      if e.name == "ValidationError" then (400, "Validation Error", StrCode("VALIDATION_ERROR"))
      else if e.name == "UnauthorizedError" || e.name == "JsonWebTokenError" then (401, "Unauthorized", StrCode("UNAUTHORIZED"))
      else if e.name == "CastError" then (400, "Invalid ID format", StrCode("INVALID_ID"))
      else if e.name == "MongoError" && e.code == NumCode(DuplicateKeyCode) then (409, "Duplicate entry", StrCode("DUPLICATE_ENTRY"))
      else (OwnStatus(e), OwnMessage(e), OwnCode(e));
    var message := if nodeEnv == Some("production") && status == 500 then ProductionMessage else message;
    ErrorResponse(
      status,
      false,
      message,
      if CodeTruthy(code) then Some(code) else None,
      if requestId.Some? && requestId.value != "" then requestId else None)
  }

  /** The four recognised names override whatever status and code the error carried. */
  lemma NamedClassesOverride(e: AppError, nodeEnv: Option<string>, requestId: Option<string>)
    ensures var r := Handle(e, nodeEnv, requestId);
      && (e.name == "ValidationError" ==> r.status == 400 && r.error == "Validation Error" && r.code == Some(StrCode("VALIDATION_ERROR")))
      && (e.name in {"UnauthorizedError", "JsonWebTokenError"} ==> r.status == 401 && r.error == "Unauthorized" && r.code == Some(StrCode("UNAUTHORIZED")))
      && (e.name == "CastError" ==> r.status == 400 && r.error == "Invalid ID format" && r.code == Some(StrCode("INVALID_ID")))
      && (e.name == "MongoError" && e.code == NumCode(11000) ==> r.status == 409 && r.error == "Duplicate entry" && r.code == Some(StrCode("DUPLICATE_ENTRY")))
  {
  }

  /**
   * Any other error, including a `MongoError` with another code, keeps its
   * own status and code, each defaulted when missing or falsy; its message
   * is kept unless production hides a 500.
   */
  lemma UnrecognisedKeepsOwnFields(e: AppError, nodeEnv: Option<string>, requestId: Option<string>)
    requires !IsNamedClass(e)
    ensures var r := Handle(e, nodeEnv, requestId);
      && r.status == (if e.statusCode.Some? && e.statusCode.value != 0 then e.statusCode.value else 500)
      && r.code == Some(if CodeTruthy(e.code) then e.code else StrCode("INTERNAL_ERROR"))
      && (nodeEnv != Some("production") || r.status != 500 ==>
            r.error == (if e.message != "" then e.message else "Internal Server Error"))
  {
  }

  /** A recognised name never produces a 500, so production never rewrites its message. */
  lemma NamedClassesNeverInternal(e: AppError, nodeEnv: Option<string>, requestId: Option<string>)
    requires IsNamedClass(e)
    ensures Handle(e, nodeEnv, requestId).status in {400, 401, 409}
    ensures Handle(e, nodeEnv, requestId) == Handle(e, None, requestId)
  {
  }

  /**
   * The environment only decides the message, and only for status 500:
   * status, code and request id are the same in every environment.
   */
  lemma EnvironmentOnlyMasksInternalMessage(e: AppError, env1: Option<string>, env2: Option<string>, requestId: Option<string>)
    ensures var r1 := Handle(e, env1, requestId);
            var r2 := Handle(e, env2, requestId);
      && r1.status == r2.status && r1.code == r2.code && r1.requestId == r2.requestId
      && (r1.status != 500 ==> r1.error == r2.error)
  {
  }

  /** `ErrorHandler.notFound`: a 404 body without a code or request id. */
  function NotFound(): (r: ErrorResponse)
    ensures r.status == 404 && !r.success && r.error == "Resource not found"
    ensures r.code.None? && r.requestId.None?
  {
    ErrorResponse(404, false, "Resource not found", None, None)
  }

  /** A 404 body is never a handled error's body: every handled body carries a code. */
  lemma NotFoundDistinctFromHandled(e: AppError, nodeEnv: Option<string>, requestId: Option<string>)
    ensures Handle(e, nodeEnv, requestId) != NotFound()
  {
  }

  /**
   * `createError(message, statusCode = 500, code?)`: a plain `Error` (name
   * `Error`) with the given status, the given code, and `isOperational`
   * set.  `None` for `statusCode` stands for the omitted argument.
   */
  function CreateError(message: string, statusCode: Option<int>, code: Option<string>): (e: AppError)
    ensures e.name == "Error" && e.message == message
    ensures e.statusCode == Some(statusCode.GetOr(500))
    ensures e.code == (if code.Some? then StrCode(code.value) else NoCode)
    ensures e.isOperational == Some(true)
  {
    AppError("Error", message, Some(statusCode.GetOr(DefaultStatus)),
      if code.Some? then StrCode(code.value) else NoCode, Some(true))
  }

  /**
   * Handling a created error reproduces what it was created with: its
   * status (500 when omitted or 0), its code (`INTERNAL_ERROR` when omitted
   * or empty) and its message (unless production hides a 500, or it was
   * empty).
   */
  lemma HandleCreatedError(message: string, statusCode: Option<int>, code: Option<string>,
                           nodeEnv: Option<string>, requestId: Option<string>)
    ensures var r := Handle(CreateError(message, statusCode, code), nodeEnv, requestId);
            var s := statusCode.GetOr(500);
      && r.status == (if s == 0 then 500 else s)
      && r.code == Some(if code.Some? && code.value != "" then StrCode(code.value) else StrCode("INTERNAL_ERROR"))
      && (message != "" && (nodeEnv != Some("production") || r.status != 500) ==> r.error == message)
  {
    UnrecognisedKeepsOwnFields(CreateError(message, statusCode, code), nodeEnv, requestId);
  }
}
