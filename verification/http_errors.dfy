/**
 * The HTTP exceptions the services and guards throw, with the status codes of
 * section 15 of RFC 9110 that each one carries, and the failed SQL statements
 * that reach the exception filter as TypeORM's `QueryFailedError`.
 */
module HttpErrors {
  import opened Wrappers

  const OK := 200
  const CREATED := 201
  const BAD_REQUEST := 400
  const UNAUTHORIZED := 401
  const FORBIDDEN := 403
  const NOT_FOUND := 404
  const CONFLICT := 409
  const INTERNAL_SERVER_ERROR := 500

  /** PostgreSQL SQLSTATE 23505, unique_violation. */
  const UNIQUE_VIOLATION := "23505"

  /** PostgreSQL SQLSTATE 23503, foreign_key_violation. */
  const FOREIGN_KEY_VIOLATION := "23503"

  /** PostgreSQL SQLSTATE 22P02, invalid_text_representation: a value an enum column does not list. */
  const INVALID_TEXT_REPRESENTATION := "22P02"

  /**
   * A thrown `BadRequestException`, `UnauthorizedException`, ... with its
   * message, or a statement the database refused, with its SQLSTATE and the
   * driver's message.
   */
  datatype HttpError =
    | BadRequest(message: string)
    | Unauthorized(message: string)
    | Forbidden(message: string)
    | NotFound(message: string)
    | Conflict(message: string)
    | DatabaseError(sqlState: string, message: string)
  {
    /** The status the exception class fixes; the filter answers a refused statement with 409 or 400. */
    function Status(): (code: int)
      ensures 400 <= code < 500
      ensures code == BAD_REQUEST <==> BadRequest? || (DatabaseError? && sqlState != UNIQUE_VIOLATION)
      ensures code == UNAUTHORIZED <==> Unauthorized?
      ensures code == FORBIDDEN <==> Forbidden?
      ensures code == NOT_FOUND <==> NotFound?
      ensures code == CONFLICT <==> Conflict? || (DatabaseError? && sqlState == UNIQUE_VIOLATION)
    {
      match this
      case BadRequest(_) => BAD_REQUEST
      case Unauthorized(_) => UNAUTHORIZED
      case Forbidden(_) => FORBIDDEN
      case NotFound(_) => NOT_FOUND
      case Conflict(_) => CONFLICT
      case DatabaseError(state, _) => if state == UNIQUE_VIOLATION then CONFLICT else BAD_REQUEST
    }

    /** The reason phrase Nest puts in the `error` field of an exception of the status's class. */
    function Reason(): string {
      match this
      case BadRequest(_) => "Bad Request"
      case Unauthorized(_) => "Unauthorized"
      case Forbidden(_) => "Forbidden"
      case NotFound(_) => "Not Found"
      case Conflict(_) => "Conflict"
      case DatabaseError(state, _) => if state == UNIQUE_VIOLATION then "Conflict" else "Bad Request"
    }
  }

  /** What a service call yields: its value, or the exception it throws. */
  type Outcome<T> = Result<T, HttpError>
}
