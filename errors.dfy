/**
 * `CustomError` and the two error middlewares: `unkownEndpoint`, which turns an
 * unmatched route into a 404 error, and `errorHandler`, the last stop that turns
 * any error into the JSON error response.
 */
module Errors {
  import opened Base

  /**
   * An error as the handler sees it. `statusCode` is absent (`undefined`) on a
   * plain `Error`; `stack` is the trace the runtime captured, if any. An absent
   * `message` behaves like the empty one.
   */
  datatype ErrorValue = ErrorValue(message: string, statusCode: Option<int>, stack: Option<string>)

  /**
   * `new CustomError(message, statusCode)`: an error carrying its status code.
   * `trace` is the stack text the runtime captures for it.
   */
  function CustomError(message: string, statusCode: int, trace: string): ErrorValue {
    ErrorValue(message, Some(statusCode), Some(trace))
  }

  /** What a middleware hands on: `next()` or `next(error)` (a thrown error reaches `next` too). */
  datatype Next = Continue | Forward(error: ErrorValue)

  const DefaultMessage := "An unexpected error occurred"
  const NotFoundPrefix := "Not Found - "
  const Production := "production"

  /** The `stack` entry of the body: `null`, the trace, or `undefined` (dropped from the JSON). */
  datatype StackEntry = Null | Trace(text: string) | Undefined

  datatype ErrorBody = ErrorBody(message: string, stack: StackEntry)

  /** The response `errorHandler` writes: the status set by `res.status` and the body sent by `res.json`. */
  datatype Response = Response(status: int, body: ErrorBody)

  /** JavaScript truthiness of `err.statusCode`: present and non-zero. */
  predicate HasStatus(err: ErrorValue) {
    err.statusCode.Some? && err.statusCode.value != 0
  }

  /**
   * `errorHandler(err, req, res, next)`: `responseStatus` is `res.statusCode` on
   * entry and `nodeEnv` is `process.env.NODE_ENV`.
   */
  function HandleError(err: ErrorValue, responseStatus: int, nodeEnv: Option<string>): (r: Response)
    // the status: the error's own code, else a status already set on the response, else 500
    ensures HasStatus(err) ==> r.status == err.statusCode.value
    ensures !HasStatus(err) && responseStatus != 200 ==> r.status == responseStatus
    ensures !HasStatus(err) && responseStatus == 200 ==> r.status == 500
    // an error only ever answers 200 when it asks for 200 itself
    ensures r.status == 200 ==> err.statusCode == Some(200)
    // the message: never empty, the error's own unless it has none
    ensures r.body.message != ""
    ensures err.message != "" ==> r.body.message == err.message
    ensures err.message == "" ==> r.body.message == DefaultMessage
    // the trace is withheld exactly in production
    ensures r.body.stack == Null <==> nodeEnv == Some(Production)
    ensures nodeEnv != Some(Production) && err.stack.Some? ==> r.body.stack == Trace(err.stack.value)
    ensures nodeEnv != Some(Production) && err.stack.None? ==> r.body.stack == Undefined
  {
    var status := if HasStatus(err) then err.statusCode.value
                  else if responseStatus != 200 then responseStatus
                  else 500;
    var message := if err.message != "" then err.message else DefaultMessage;
    var stack := if nodeEnv == Some(Production) then Null
                 else if err.stack.Some? then Trace(err.stack.value)
                 else Undefined;
    Response(status, ErrorBody(message, stack))
  }

  /**
   * `unkownEndpoint`: forwards a fresh error whose message names the requested
   * URL and whose status code is 404.
   */
  function UnknownEndpoint(originalUrl: string, trace: string): (n: Next)
    ensures n.Forward?
    ensures n.error.statusCode == Some(404)
    ensures n.error.message == NotFoundPrefix + originalUrl
  {
    Forward(ErrorValue(NotFoundPrefix + originalUrl, Some(404), Some(trace)))
  }

  /** Whatever the response status was, an unknown endpoint is answered 404 with its URL. */
  lemma UnknownEndpointAnswers404(originalUrl: string, trace: string, responseStatus: int, nodeEnv: Option<string>)
    ensures var r := HandleError(UnknownEndpoint(originalUrl, trace).error, responseStatus, nodeEnv);
            r.status == 404 && r.body.message == NotFoundPrefix + originalUrl
  {
  }

  /** A `CustomError` with a non-zero code is answered with that code and its own message. */
  lemma CustomErrorAnswersWithItsCode(message: string, code: int, trace: string, responseStatus: int, nodeEnv: Option<string>)
    requires code != 0 && message != ""
    ensures var r := HandleError(CustomError(message, code, trace), responseStatus, nodeEnv);
            r.status == code && r.body.message == message
  {
  }

  /** A `CustomError` built with code 0 carries no usable status: the handler falls back. */
  lemma CustomErrorZeroFallsBack(message: string, trace: string, responseStatus: int, nodeEnv: Option<string>)
    ensures var r := HandleError(CustomError(message, 0, trace), responseStatus, nodeEnv);
            r.status == (if responseStatus != 200 then responseStatus else 500)
  {
  }
}
