/**
 * What the API sends back: a status code and a JSON body, and the table of
 * error handlers that turns an aborted request or an unhandled fault into
 * `{success: false, error: <code>, message: <text>}`.
 */
module Responses {
  import opened Records

  /** The failures that have a registered error handler. */
  datatype HttpError =
    | BadRequest
    | Unauthorized
    | Forbidden
    | NotFound
    | MethodNotAllowed
    | UnprocessableEntity
    | InternalServerError

  /** The JSON bodies the handlers produce. */
  datatype Body =
    | Empty
    | CategoriesBody(categories: map<int, string>)
    | QuestionsBody(questions: seq<Question>, totalQuestions: int, allCategories: map<int, string>)
    | SearchBody(matches: seq<Question>, totalMatches: int)
    | CategoryQuestionsBody(inCategory: seq<Question>, totalInCategory: int, currentCategory: string)
    | QuizBody(question: Question)
    | ErrorBody(success: bool, error: int, message: string)

  datatype Response = Response(status: int, body: Body)

  function Code(e: HttpError): int
  {
    match e
    case BadRequest => 400
    case Unauthorized => 401
    case Forbidden => 403
    case NotFound => 404
    case MethodNotAllowed => 405
    case UnprocessableEntity => 422
    case InternalServerError => 500
  }

  function Message(e: HttpError): string
  {
    match e
    case BadRequest => "Bad request"
    case Unauthorized => "Unauthorized Request"
    case Forbidden => "Forbidden Request"
    case NotFound => "Not Found"
    case MethodNotAllowed => "Method Not Allowed"
    case UnprocessableEntity => "Unprocessable Entity"
    case InternalServerError => "Internal Server Error"
  }

  /** The status codes that have an error handler, and which handler. */
  function FromCode(code: int): (r: Option<HttpError>)
    ensures r.Some? ==> Code(r.value) == code
  {
    if code == 400 then Some(BadRequest)
    else if code == 401 then Some(Unauthorized)
    else if code == 403 then Some(Forbidden)
    else if code == 404 then Some(NotFound)
    else if code == 405 then Some(MethodNotAllowed)
    else if code == 422 then Some(UnprocessableEntity)
    else if code == 500 then Some(InternalServerError)
    else None
  }

  /** Every error has a handler under its own code, so no two errors share a code. */
  lemma CodeRoundTrip(e: HttpError)
    ensures FromCode(Code(e)) == Some(e)
  {
  }

  /** An error response: its status and its body's `error` field are the error's code. */
  predicate IsErrorResponse(r: Response)
  {
    r.body.ErrorBody? && !r.body.success && r.body.error == r.status
  }

  /** The response the error handler registered for `e` returns. */
  function ErrorResponse(e: HttpError): (r: Response)
    ensures IsErrorResponse(r)
    ensures FromCode(r.status) == Some(e)
    ensures r.body.message == Message(e)
  {
    Response(Code(e), ErrorBody(false, Code(e), Message(e)))
  }

  /** The fixed message of each handled code. */
  lemma ErrorTable()
    ensures ErrorResponse(BadRequest).body == ErrorBody(false, 400, "Bad request")
    ensures ErrorResponse(Unauthorized).body == ErrorBody(false, 401, "Unauthorized Request")
    ensures ErrorResponse(Forbidden).body == ErrorBody(false, 403, "Forbidden Request")
    ensures ErrorResponse(NotFound).body == ErrorBody(false, 404, "Not Found")
    ensures ErrorResponse(MethodNotAllowed).body == ErrorBody(false, 405, "Method Not Allowed")
    ensures ErrorResponse(UnprocessableEntity).body == ErrorBody(false, 422, "Unprocessable Entity")
    ensures ErrorResponse(InternalServerError).body == ErrorBody(false, 500, "Internal Server Error")
  {
  }

  /** Distinct errors give distinct messages, so a client can tell them apart by message too. */
  lemma MessagesDistinct(e1: HttpError, e2: HttpError)
    requires Message(e1) == Message(e2)
    ensures e1 == e2
  {
  }
}
