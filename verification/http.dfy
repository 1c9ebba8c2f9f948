/** Responses and the error-handling middleware: every error a route passes
    on is turned into exactly one status and JSON body. */
module Http {
  import opened Wrappers
  import opened Text
  import opened ExpenseModel
  import opened Stats

  /** An error as the middleware sees it: its `name`, the messages of its
      per-field `errors` (in insertion order), and its `message`. */
  datatype AppError = AppError(name: string, fieldMessages: seq<string>, message: string)

  /** What schema validation throws: one message per failing path. */
  function ValidationFailure(messages: seq<string>): AppError {
    AppError("ValidationError", messages, "Expense validation failed")
  }

  /** What casting a malformed identifier or date throws. */
  function CastFailure(message: string): AppError {
    AppError("CastError", [], message)
  }

  datatype Body =
    | ExpenseJson(expense: Expense)
    | ExpenseListJson(expenses: seq<Expense>)
    | StatsJson(snapshot: Snapshot)
    | DeletedJson(confirmation: string, expense: Expense)  // the `message` key
    | ErrorJson(error: string, details: Option<string>, message: Option<string>)

  datatype Response = Response(status: int, body: Body)

  const ValidationFailed: string := "Validation failed"
  const InvalidId: string := "Invalid expense ID"
  const ServerError: string := "Server error"
  const FallbackMessage: string := "Something went wrong"

  predicate IsClientError(err: AppError) {
    err.name == "ValidationError" || err.name == "CastError"
  }

  /** The error middleware. Validation errors are tested before cast errors;
      anything else is a server error whose message falls back to a fixed
      text when empty. */
  function ErrorResponse(err: AppError): (r: Response)
    ensures r.body.ErrorJson?
    ensures r.status == 400 <==> IsClientError(err)
    ensures r.status == 500 <==> !IsClientError(err)
    ensures err.name == "ValidationError" ==>
              r.body == ErrorJson(ValidationFailed, Some(Join(err.fieldMessages, ", ")), None)
    ensures err.name == "CastError" ==> r.body == ErrorJson(InvalidId, None, None)
    ensures !IsClientError(err) ==>
              && r.body.error == ServerError && r.body.details.None? && r.body.message.Some?
              && r.body.message.value != ""
              && (err.message != "" ==> r.body.message.value == err.message)
              && (err.message == "" ==> r.body.message.value == FallbackMessage)
  {
    if err.name == "ValidationError" then
      Response(400, ErrorJson(ValidationFailed, Some(Join(err.fieldMessages, ", ")), None))
    else if err.name == "CastError" then
      Response(400, ErrorJson(InvalidId, None, None))
    else
      Response(500, ErrorJson(ServerError, None, Some(if err.message != "" then err.message else FallbackMessage)))
  }

  /** Every field message of a validation error appears, unchanged, in the
      `details` of its response, at the offset the `', '` separators give it. */
  lemma ValidationDetailsCarryEveryMessage(messages: seq<string>, i: nat)
    requires i < |messages|
    ensures var d := ErrorResponse(ValidationFailure(messages)).body.details.value;
            var o := JoinOffset(messages, ", ", i);
            o + |messages[i]| <= |d| && d[o..o + |messages[i]|] == messages[i]
  {
    JoinContainsParts(messages, ", ", i);
  }

  /** A validation error with one more message gets that message appended
      after `', '`. */
  lemma ValidationDetailsAppend(messages: seq<string>, m: string)
    requires |messages| > 0
    ensures ErrorResponse(ValidationFailure(messages + [m])).body.details.value
            == ErrorResponse(ValidationFailure(messages)).body.details.value + ", " + m
  {
    JoinSnoc(messages, ", ", m);
  }
}
