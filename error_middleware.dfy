/** The error-handling middleware (backend/src/middlewares/error.middleware.js):
    the one place where a thrown object becomes an HTTP response. */
module ErrorMiddleware {
  import opened Js

  const InternalCode := "INTERNAL_ERROR"
  const DefaultMessage := "Something went wrong. Please try again later."

  datatype ErrorDetail = ErrorDetail(code: string, message: string)

  /** The JSON body `{success, error: {code, message}}`. */
  datatype ErrorBody = ErrorBody(success: bool, error: ErrorDetail)

  datatype ErrorResponse = ErrorResponse(status: int, body: ErrorBody)

  /** `err.status || 500`, `err.code || "INTERNAL_ERROR"`,
      `err.message || DefaultMessage`, wrapped in the failure envelope. The
      response never carries a falsy status, code or message, and it always
      reports failure. */
  function Handle(err: Thrown): (r: ErrorResponse)
    ensures r.status != 0 && r.body.error.code != "" && r.body.error.message != ""
    ensures !r.body.success
    ensures r.status == (if TruthyInt(err.status) then err.status.value else 500)
    ensures r.body.error.code == (if TruthyString(err.code) then err.code.value else InternalCode)
    ensures r.body.error.message == (if TruthyString(err.message) then err.message.value else DefaultMessage)
  {
    var status := if TruthyInt(err.status) then err.status.value else 500;
    var code := if TruthyString(err.code) then err.code.value else InternalCode;
    var message := if TruthyString(err.message) then err.message.value else DefaultMessage;
    ErrorResponse(status, ErrorBody(false, ErrorDetail(code, message)))
  }

  /** A fully populated error object reaches the client unchanged. */
  lemma PassesThrough(status: int, code: string, message: string)
    requires status != 0 && code != "" && message != ""
    ensures Handle(Fail(status, code, message))
      == ErrorResponse(status, ErrorBody(false, ErrorDetail(code, message)))
  {
  }

  /** An unexpected failure that carries nothing (a plain TypeError from
      the runtime, say) is reported as a generic 500. */
  lemma UnknownErrorIsInternal(message: Option<string>)
    ensures Handle(Thrown(None, None, message)).status == 500
    ensures Handle(Thrown(None, None, message)).body.error.code == InternalCode
  {
  }
}
