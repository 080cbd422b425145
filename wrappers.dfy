/** Option and Result values shared by every module, and the HTTP error that
    the handlers raise with `createError({ statusCode, statusMessage })`. */
module Wrappers {

  datatype Option<+T> = None | Some(value: T)

  /** An HTTP error as the handlers throw it: a status code and a message. */
  datatype HttpError = HttpError(status: int, message: string)

  /** Either the handler's value or the error it throws. */
  datatype Result<+T> = Ok(value: T) | Err(error: HttpError)

  function BadRequest(message: string): HttpError { HttpError(400, message) }
  function Unauthorized(): HttpError { HttpError(401, "Unauthorized") }
  function Forbidden(): HttpError { HttpError(403, "Forbidden") }
  function NotFound(message: string): HttpError { HttpError(404, message) }
  function Conflict(message: string): HttpError { HttpError(409, message) }
  /** A storage error that the handler does not catch surfaces as a 500. */
  function Internal(message: string): HttpError { HttpError(500, message) }
}
