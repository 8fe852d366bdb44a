/** Values shared by every part of the credential service: optional values,
    results that carry an error, and the HTTP error that the web framework
    turns into a response. */
module Common {

  /** A value that may be absent (Python's `Optional`). */
  datatype Option<+T> = None | Some(value: T)

  /** Either a value or the error that replaced it (a raised exception). */
  datatype Result<+T, +E> = Success(value: T) | Failure(error: E)

  /** An HTTP error as raised by a handler: status code, detail text, and
      the optional `WWW-Authenticate` challenge header. */
  datatype HttpError = HttpError(status: int, detail: string, wwwAuthenticate: Option<string> := None)

  const BadRequest := 400
  const Unauthorized := 401
  const InternalServerError := 500
}
