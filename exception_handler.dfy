/**
 * GlobalExceptionHandler: every failure that escapes a controller is turned
 * into an ErrorResponse body paired with an HTTP status.  Parse failures of
 * JSON or XML give 400, a missing resource gives 404, anything else 500.
 */
module ExceptionHandler {
  import opened Wrappers

  const BadRequestReason := "Bad Request"
  const InternalServerErrorReason := "Internal Server Error"
  const NotFoundReason := "Resource not found"

  /** The three statuses the handler answers with. */
  datatype HttpStatus = BadRequest | NotFound | InternalServerError
  {
    /** HttpStatus.value(): the numeric code. */
    function Value(): int
    {
      match this
      case BadRequest => 400
      case NotFound => 404
      case InternalServerError => 500
    }
  }

  /** The exception classes the handlers are registered for; Other is every
      exception that is none of them. */
  datatype FailureKind = JsonParse | XmlParse | NoResourceFound | Other

  /** A failure and its getMessage(), which may be null. */
  datatype Failure = Failure(kind: FailureKind, message: Option<string>)

  /** The clock reading LocalDateTime.now() supplies. */
  type Timestamp = int

  /** The record sent as the response body. */
  datatype ErrorResponse = ErrorResponse(timestamp: Timestamp, status: int, error: string, message: Option<string>, path: string)

  datatype ResponseEntity = ResponseEntity(body: ErrorResponse, status: HttpStatus)

  /** getErrorResponseResponseEntity: the record carries the response's own
      status code, the given reason, and the failure's message and the request
      description unchanged. */
  function ErrorResponseEntity(status: HttpStatus, reason: string, ex: Failure, description: string, now: Timestamp): (r: ResponseEntity)
    ensures r.status == status && r.body.status == r.status.Value()
    ensures r.body.error == reason
    ensures r.body.message == ex.message && r.body.path == description && r.body.timestamp == now
  {
    ResponseEntity(ErrorResponse(now, status.Value(), reason, ex.message, description), status)
  }

  /** handleJsonException: 400 "Bad Request". */
  function HandleJsonException(ex: Failure, description: string, now: Timestamp): (r: ResponseEntity)
    ensures r.status == BadRequest && r.body.status == 400 && r.body.error == "Bad Request"
    ensures r.body.message == ex.message && r.body.path == description
  {
    ErrorResponseEntity(BadRequest, BadRequestReason, ex, description, now)
  }

  /** handleNotFoundException: 404 "Resource not found". */
  function HandleNotFoundException(ex: Failure, description: string, now: Timestamp): (r: ResponseEntity)
    ensures r.status == NotFound && r.body.status == 404 && r.body.error == "Resource not found"
    ensures r.body.message == ex.message && r.body.path == description
  {
    ErrorResponseEntity(NotFound, NotFoundReason, ex, description, now)
  }

  /** handleGlobalException: 500 "Internal Server Error". */
  function HandleGlobalException(ex: Failure, description: string, now: Timestamp): (r: ResponseEntity)
    ensures r.status == InternalServerError && r.body.status == 500 && r.body.error == "Internal Server Error"
    ensures r.body.message == ex.message && r.body.path == description
  {
    ErrorResponseEntity(InternalServerError, InternalServerErrorReason, ex, description, now)
  }

  /** The reason phrase the table pairs with each status. */
  function ReasonFor(status: HttpStatus): string
  {
    match status
    case BadRequest => BadRequestReason
    case NotFound => NotFoundReason
    case InternalServerError => InternalServerErrorReason
  }

  /** A response the table allows: the body's code is the response's, and its
      reason is the one the table pairs with that status. */
  predicate WellFormed(r: ResponseEntity)
  {
    r.body.status == r.status.Value() && r.body.error == ReasonFor(r.status)
  }

  /** The handler Spring picks for a failure: the registered exception classes
      are unrelated, so the most specific match is a case split, with the
      handler for Exception taking the rest.  Every response carries a
      (status, reason) pair from the table, and the failure's message (null
      included) and the request description unchanged. */
  function Handle(ex: Failure, description: string, now: Timestamp): (r: ResponseEntity)
    ensures WellFormed(r)
    ensures r.body.message == ex.message && r.body.path == description && r.body.timestamp == now
  {
    match ex.kind
    case JsonParse => HandleJsonException(ex, description, now)
    case XmlParse => HandleJsonException(ex, description, now)
    case NoResourceFound => HandleNotFoundException(ex, description, now)
    case Other => HandleGlobalException(ex, description, now)
  }

  /** Classification is total and follows the table in both directions. */
  lemma ClassificationTable(ex: Failure, description: string, now: Timestamp)
    ensures Handle(ex, description, now).status == BadRequest <==> ex.kind == JsonParse || ex.kind == XmlParse
    ensures Handle(ex, description, now).status == NotFound <==> ex.kind == NoResourceFound
    ensures Handle(ex, description, now).status == InternalServerError <==> ex.kind == Other
  {
  }

  /** The three (status code, reason) pairs are all the handler produces. */
  lemma OnlyThreeOutcomes(ex: Failure, description: string, now: Timestamp)
    ensures var r := Handle(ex, description, now);
            (r.body.status, r.body.error) in
              {(400, "Bad Request"), (404, "Resource not found"), (500, "Internal Server Error")}
  {
  }
}
