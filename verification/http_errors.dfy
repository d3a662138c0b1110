/** The HTTP exceptions the server throws, reduced to status and message. */
module HttpErrors {

  const BadRequest: int := 400
  const Unauthorized: int := 401
  const Forbidden: int := 403
  const NotFound: int := 404
  const Conflict: int := 409
  const InternalServerError: int := 500

  /** The message of every 500 answer: unknown failures disclose nothing. */
  const InternalError: string := "internal error"

  /** `new XxxException(message)` for one of the statuses above. */
  datatype HttpError = HttpError(status: int, message: string)
}
