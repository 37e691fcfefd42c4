/**
 * The Express error middleware (server/middleware/errorHandler.js).  The
 * response is modelled as a record instead of the mutable `res` object, and
 * `process.env.NODE_ENV` as a parameter (`None` when it is unset).
 */
module ErrorHandler {
  import opened Wrappers

  /** A JavaScript `Error`: its message and the stack trace text the runtime gave it. */
  datatype JsError = JsError(message: string, stack: string)

  /** What a middleware leaves behind before calling `next(error)`: `res.statusCode` and the error. */
  datatype Forwarded = Forwarded(statusCode: int, error: JsError)

  /** `res.status(status).json({ message, stack })`; a `null` stack is `None`. */
  datatype ErrorResponse = ErrorResponse(status: int, message: string, stack: Option<string>)

  /** Express's default `res.statusCode` before any handler sets one. */
  const DefaultStatusCode := 200

  /** `notFound`: sets 404 and forwards an error naming the unmatched URL. */
  function NotFound(originalUrl: string, stack: string): Forwarded
  {
    Forwarded(404, JsError("Not Found - " + originalUrl, stack))
  }

  /**
   * `errorHandler`: a status still at the default 200 becomes 500, any other
   * status set earlier is kept; the stack is withheld in production.
   */
  function Respond(statusCode: int, err: JsError, nodeEnv: Option<string>): (r: ErrorResponse)
    ensures r.status != 200
    ensures statusCode != 200 ==> r.status == statusCode
    ensures r.message == err.message
    ensures r.stack.None? <==> nodeEnv == Some("production")
    ensures r.stack.Some? ==> r.stack.value == err.stack
  {
    var status := if statusCode == 200 then 500 else statusCode;
    ErrorResponse(status, err.message, if nodeEnv == Some("production") then None else Some(err.stack))
  }

  /** An error thrown before any status was set is reported as 500. */
  lemma UnsetStatusIsServerError(err: JsError, nodeEnv: Option<string>)
    ensures Respond(DefaultStatusCode, err, nodeEnv).status == 500
  {
  }

  /** An unmatched route ends as a 404 whose message names the URL. */
  lemma UnmatchedRoute(originalUrl: string, stack: string, nodeEnv: Option<string>)
    ensures var fwd := NotFound(originalUrl, stack);
            Respond(fwd.statusCode, fwd.error, nodeEnv)
              == ErrorResponse(404, "Not Found - " + originalUrl, if nodeEnv == Some("production") then None else Some(stack))
  {
  }
}
