/**
 * The global exception filter: every exception becomes an envelope whose
 * `code` is the HTTP status it is sent with; unknown exceptions disclose
 * nothing.
 */
module ExceptionFilter {
  import opened Wrappers
  import opened Text
  import opened Envelope
  import opened HttpErrors

  /** The `message` member of an object body: absent, a string, or a list of strings. */
  datatype Message = NoMessage | Text(text: string) | Lines(lines: seq<string>)

  /** `exception.getResponse()`: a string, or an object with optional `message` and `data`. */
  datatype Body<D> = StringBody(text: string) | ObjectBody(message: Message, data: Option<D>)

  /**
   * A thrown value: an `HttpException` with its status, response body and
   * own `message`, or anything else.
   */
  datatype Exception<D> = HttpException(status: int, body: Body<D>, message: string) | OtherException

  /** The status and JSON body written to the response; a `None` data is `null`. */
  datatype Sent<D> = Sent(status: int, body: ApiResponse<Option<D>>)

  /**
   * `parseHttpExceptionBody`: a string body is the message with null data;
   * an object's list message is joined with ", ", a missing message falls
   * back to the exception's own, and missing data is null.
   */
  function ParseHttpExceptionBody<D>(body: Body<D>, fallbackMessage: string): (r: (string, Option<D>))
    ensures body.StringBody? ==> r == (body.text, None)
    ensures body.ObjectBody? ==> r.1 == body.data
    ensures body.ObjectBody? && body.message.NoMessage? ==> r.0 == fallbackMessage
    ensures body.ObjectBody? && body.message.Text? ==> r.0 == body.message.text
    ensures body.ObjectBody? && body.message.Lines? ==> r.0 == Join(body.message.lines, ", ")
  {
    match body
    case StringBody(text) => (text, None)
    case ObjectBody(message, data) =>
      var m := match message
        case Lines(lines) => Join(lines, ", ")
        case Text(text) => text
        case NoMessage => fallbackMessage;
      (m, data)
  }

  /** `HttpExceptionFilter.catch` */
  function Catch<D>(exception: Exception<D>): (r: Sent<D>)
    ensures r.body.code == r.status
    ensures exception.HttpException? ==> r.status == exception.status
    ensures exception.HttpException? ==>
      (r.body.message, r.body.data) == ParseHttpExceptionBody(exception.body, exception.message)
    ensures exception.OtherException? ==> r == Sent(InternalServerError, ApiResponse(InternalServerError, InternalError, None))
  {
    match exception
    case HttpException(status, body, message) =>
      var (m, data) := ParseHttpExceptionBody(body, message);
      Sent(status, ApiResponse(status, m, data))
    case OtherException => Sent(InternalServerError, ApiResponse(InternalServerError, InternalError, None))
  }

  /**
   * `new XxxException(message)` of the framework: its response body is an
   * object whose `message` is the given text, with no `data`.
   */
  function Thrown<D>(e: HttpError): Exception<D> {
    HttpException(e.status, ObjectBody(Text(e.message), None), e.message)
  }

  /** A service error reaches the client as an envelope with its status and message and null data. */
  lemma ServiceErrorEnvelope<D>(e: HttpError)
    ensures Catch<D>(Thrown(e)) == Sent(e.status, ApiResponse(e.status, e.message, None))
  {
  }

  /** A list message of one line is that line; an empty list gives the empty message, not the fallback. */
  lemma ListMessages<D>(status: int, line: string, fallback: string)
    ensures Catch<D>(HttpException(status, ObjectBody(Lines([line]), None), fallback)).body.message == line
    ensures Catch<D>(HttpException(status, ObjectBody(Lines([]), None), fallback)).body.message == ""
  {
  }
}
