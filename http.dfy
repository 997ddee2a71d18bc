/** Status codes the handlers answer with, and the two small wrappers they are built from. */
module Http {

  const OK := 200
  const CREATED := 201
  const BAD_REQUEST := 400
  const UNAUTHORIZED := 401
  const FORBIDDEN := 403
  const NOT_FOUND := 404
  const CONFLICT := 409
  const SERVER_ERROR := 500

  /** A value that may be absent: JavaScript's `undefined`. */
  datatype Option<+T> = None | Some(value: T)

  /** The outcome of a read handler: the data it sends, or the status code of its error reply. */
  datatype Result<+T> = Ok(value: T) | Err(code: int)
}
