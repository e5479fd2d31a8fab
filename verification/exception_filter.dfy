/**
 * The application-wide exception filter: whatever a handler throws becomes an
 * HTTP status and a JSON body `{statusCode, message, path, timestamp}`.
 */
module ExceptionFilter {
  import opened Wrappers
  import opened HttpErrors

  const DEFAULT_MESSAGE := "Internal server error"
  const DUPLICATE_KEY_MESSAGE := "Duplicate key value violates unique constraint"

  /** A `message` field: one string, or the list of messages the validation pipe collects. */
  datatype Message = Text(text: string) | Lines(lines: seq<string>)

  /** JavaScript truthiness of an optional message: `""` is falsy, every array is truthy. */
  predicate Truthy(m: Option<Message>) {
    match m
    case None => false
    case Some(Text(t)) => t != ""
    case Some(Lines(_)) => true
  }

  /** What `HttpException.getResponse()` returns: a string, an object, or `null`. */
  datatype Response =
    | StringResponse(text: string)
    | ObjectResponse(message: Option<Message>, error: Option<string>)
    | NullResponse

  /** The thrown value, classified the way the filter's `instanceof` tests see it. */
  datatype Thrown =
    | HttpException(status: int, response: Response, exceptionMessage: string)
    | QueryFailed(code: string, detail: Option<string>, errorMessage: string)
    | PlainError(errorMessage: string)
    | NotAnError

  datatype ErrorBody = ErrorBody(statusCode: int, message: Message, path: string, timestamp: string)

  /** The status sent and the body written. */
  datatype Reply = Reply(status: int, body: ErrorBody)

  /** `a || b` on optional strings. */
  function OrElse(a: Option<string>, b: string): (r: string)
    ensures a.Some? && a.value != "" ==> r == a.value
    ensures (a.None? || a.value == "") ==> r == b
  {
    if a.Some? && a.value != "" then a.value else b
  }

  /** The status and message the filter picks for a thrown value. */
  function Classify(e: Thrown): (r: (int, Message))
    ensures e.NotAnError? ==> r == (INTERNAL_SERVER_ERROR, Text(DEFAULT_MESSAGE))
    ensures e.HttpException? ==> r.0 == e.status
    ensures e.HttpException? && e.response.StringResponse? ==> r.1 == Text(e.response.text)
    ensures e.HttpException? && e.response.NullResponse? ==> r.1 == Text(DEFAULT_MESSAGE)
    ensures e.HttpException? && e.response.ObjectResponse? && Truthy(e.response.message) ==>
              r.1 == e.response.message.value
    ensures e.HttpException? && e.response.ObjectResponse? && !Truthy(e.response.message) ==>
              r.1 == Text(OrElse(e.response.error, e.exceptionMessage))
    ensures e.QueryFailed? ==> (r.0 == CONFLICT <==> e.code == UNIQUE_VIOLATION)
    ensures e.QueryFailed? && e.code == UNIQUE_VIOLATION ==>
              r.1 == Text(OrElse(e.detail, DUPLICATE_KEY_MESSAGE))
    ensures e.QueryFailed? && e.code != UNIQUE_VIOLATION ==> r == (BAD_REQUEST, Text(e.errorMessage))
    ensures e.PlainError? ==> r == (INTERNAL_SERVER_ERROR, Text(e.errorMessage))
  {
    match e
    case HttpException(status, response, exceptionMessage) =>
      var message :=
        match response
        case StringResponse(text) => Text(text)
        case ObjectResponse(m, error) =>
          if Truthy(m) then m.value else Text(OrElse(error, exceptionMessage))
        case NullResponse => Text(DEFAULT_MESSAGE);
      (status, message)
    case QueryFailed(code, detail, errorMessage) =>
      if code == UNIQUE_VIOLATION then (CONFLICT, Text(OrElse(detail, DUPLICATE_KEY_MESSAGE)))
      else (BAD_REQUEST, Text(errorMessage))
    case PlainError(errorMessage) => (INTERNAL_SERVER_ERROR, Text(errorMessage))
    case NotAnError => (INTERNAL_SERVER_ERROR, Text(DEFAULT_MESSAGE))
  }

  /** `catch(exception, host)`: the reply for a request to `url` at time `now`. */
  function Catch(e: Thrown, url: string, now: string): (reply: Reply)
    ensures reply.body.statusCode == reply.status
    ensures reply.body.path == url && reply.body.timestamp == now
    ensures (reply.status, reply.body.message) == Classify(e)
  {
    var (status, message) := Classify(e);
    Reply(status, ErrorBody(status, message, url, now))
  }

  /**
   * How Nest builds a built-in exception from a message: the response object
   * holds the message and the reason phrase, or only the phrase when the
   * message is empty. A refused statement is thrown by the driver instead,
   * with no `detail`.
   */
  function Raise(err: HttpError): (e: Thrown)
    ensures !err.DatabaseError? ==> e.HttpException? && e.status == err.Status()
    ensures err.DatabaseError? ==> e == QueryFailed(err.sqlState, None, err.message)
  {
    if err.DatabaseError? then QueryFailed(err.sqlState, None, err.message)
    else if err.message == "" then
      HttpException(err.Status(), ObjectResponse(Some(Text(err.Reason())), None), err.Reason())
    else
      HttpException(err.Status(), ObjectResponse(Some(Text(err.message)), Some(err.Reason())), err.message)
  }

  /**
   * Every exception a service or guard throws reaches the client with its own
   * status and message; a refused statement other than a duplicate key shows
   * the driver's message as it is.
   */
  lemma ServiceErrorReply(err: HttpError, url: string, now: string)
    ensures var reply := Catch(Raise(err), url, now);
            reply.status == err.Status() && reply.body.statusCode == err.Status() &&
            (!err.DatabaseError? ==> reply.body.message == Text(if err.message == "" then err.Reason() else err.message)) &&
            (err.DatabaseError? && err.sqlState != UNIQUE_VIOLATION ==> reply.body.message == Text(err.message)) &&
            (err.DatabaseError? && err.sqlState == UNIQUE_VIOLATION ==> reply.body.message == Text(DUPLICATE_KEY_MESSAGE))
  {
  }

  /** The validation pipe's failure: a 400 whose response lists every broken constraint. */
  function ValidationFailure(messages: seq<string>): (e: Thrown)
    ensures Classify(e) == (BAD_REQUEST, Lines(messages))
  {
    HttpException(BAD_REQUEST, ObjectResponse(Some(Lines(messages)), Some("Bad Request")), "Bad Request Exception")
  }

  /** Every reply is a 4xx or 5xx when thrown HTTP exceptions carry one, and a database error never gives 500. */
  lemma ErrorStatuses(e: Thrown)
    requires e.HttpException? ==> 400 <= e.status < 600
    ensures 400 <= Classify(e).0 < 600
    ensures Classify(e).0 == INTERNAL_SERVER_ERROR ==> e.HttpException? || e.PlainError? || e.NotAnError?
  {
  }
}
