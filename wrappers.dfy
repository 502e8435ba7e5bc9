/** Optional values and the typed outcomes every handler answers with. */
module Wrappers {

  datatype Option<+T> = None | Some(value: T)

  /** The error kinds of the handlers: HTTP 404, 403, 400 (a failed balance check),
      400 (any other rejected request), 401 and 500 (a database constraint the save violates). */
  datatype Error = NotFound | Forbidden | InsufficientBalance | BadRequest | Unauthorized | ServerError

  /** The result of a handler: the response data, or the error it answers with. */
  datatype Result<+T> = Ok(value: T) | Err(error: Error)

  /** The result of a middleware: hand the request on (`next()`), or answer with an error. */
  datatype Outcome = Pass | Fail(error: Error)
}
