/** The Express error-handling middleware: the one place where errors raised while
    handling a request (passed on with next(error)) become an HTTP status and a message.
    The statuses are those of section 15 of RFC 9110 (404 Not Found, 400 Bad Request,
    401 Unauthorized, 500 Internal Server Error). */
module ErrorHandler {
  import opened Common
  import Text

  /** The fields of a thrown error that the handler looks at. */
  datatype ErrorValue = ErrorValue(
    name: string,                // err.name
    code: Option<int>,           // err.code (a MongoDB driver error code)
    fieldMessages: seq<string>,  // Object.values(err.errors).map(v => v.message)
    message: Option<string>,     // err.message
    statusCode: Option<int>,     // err.statusCode, set by application code
    stack: string)               // err.stack

  /** What a controller does with a request: answers it itself (with a success or a
      failure status), or hands an error to the middleware with next(error). */
  datatype Reply<T> =
    | Ok(status: int, value: T)
    | Refused(status: int, message: string)
    | Raised(error: ErrorValue)

  /** The JSON body sent back: { success, message, stack? }. */
  datatype Response = Response(status: int, success: bool, message: string, stack: Option<string>)

  /** The Mongoose ValidationError for a failed save or update: one message per failing
      path, in path order, and the summary "<summary>: path: message, …" (the summary is
      "<Model> validation failed" on save and "Validation failed" on an update). */
  function ValidationFailure(summary: string, failures: seq<(string, string)>): (e: ErrorValue)
    ensures e.name == "ValidationError" && e.code == None && |e.fieldMessages| == |failures|
    ensures forall i :: 0 <= i < |failures| ==> e.fieldMessages[i] == failures[i].1
  {
    var messages := seq(|failures|, i requires 0 <= i < |failures| => failures[i].1);
    var described := seq(|failures|, i requires 0 <= i < |failures| => failures[i].0 + ": " + failures[i].1);
    ErrorValue("ValidationError", None, messages,
      Some(summary + ": " + Text.Join(described, ", ")), None, "")
  }

  /** An error reported by the document store itself (MongoServerError). */
  function StoreError(message: string): (e: ErrorValue)
    ensures e.statusCode == None && e.code != Some(11000) && e.message == Some(message)
  {
    ErrorValue("MongoServerError", Some(2), [], Some(message), None, "")
  }

  /** The handler's rules, in the order it applies them. */
  datatype Rule = CastRule | DuplicateRule | ValidationRule | InvalidTokenRule | ExpiredTokenRule | NoRule

  function Rank(r: Rule): nat {
    match r
    case NoRule => 0
    case CastRule => 1
    case DuplicateRule => 2
    case ValidationRule => 3
    case InvalidTokenRule => 4
    case ExpiredTokenRule => 5
  }

  predicate Applies(r: Rule, err: ErrorValue) {
    match r
    case CastRule => err.name == "CastError"
    case DuplicateRule => err.code == Some(11000)
    case ValidationRule => err.name == "ValidationError"
    case InvalidTokenRule => err.name == "JsonWebTokenError"
    case ExpiredTokenRule => err.name == "TokenExpiredError"
    case NoRule => true
  }

  /** The rule whose assignment survives: the last rule in handler order that applies,
      or NoRule when none does. */
  function Winner(err: ErrorValue): (r: Rule)
    ensures Applies(r, err)
    ensures forall later: Rule :: Rank(later) > Rank(r) ==> !Applies(later, err)
  {
    if err.name == "TokenExpiredError" then ExpiredTokenRule
    else if err.name == "JsonWebTokenError" then InvalidTokenRule
    else if err.name == "ValidationError" then ValidationRule
    else if err.code == Some(11000) then DuplicateRule
    else if err.name == "CastError" then CastRule
    else NoRule
  }

  /** The table the handler implements: status and message for each winning rule;
      the generic case takes err.statusCode and err.message when they are truthy. */
  function Translate(err: ErrorValue, nodeEnv: string): (res: Response)
    ensures !res.success
    ensures res.stack.Some? <==> nodeEnv == "development"
    ensures res.stack.Some? ==> res.stack.value == err.stack
    ensures res.message != ""
  {
    var stack := if nodeEnv == "development" then Some(err.stack) else None;
    match Winner(err)
    case CastRule => Response(404, false, "Resource not found", stack)
    case DuplicateRule => Response(400, false, "Duplicate field value entered", stack)
    case ValidationRule =>
      var joined := Text.Join(err.fieldMessages, ", ");
      Response(400, false, if joined != "" then joined else "Server Error", stack)
    case InvalidTokenRule => Response(401, false, "Invalid token", stack)
    case ExpiredTokenRule => Response(401, false, "Token expired", stack)
    case NoRule =>
      var status := if err.statusCode.Some? && err.statusCode.value != 0 then err.statusCode.value else 500;
      var message := if err.message.Some? && err.message.value != "" then err.message.value else "Server Error";
      Response(status, false, message, stack)
  }

  /** errorHandler(err, req, res, next): copy the error, let each matching check overwrite
      the copy, then answer with statusCode || 500 and message || 'Server Error'. */
  method Handle(err: ErrorValue, nodeEnv: string) returns (res: Response)
    ensures res == Translate(err, nodeEnv)
  {
    var message := err.message;
    var statusCode := err.statusCode;
    if err.name == "CastError" {
      message, statusCode := Some("Resource not found"), Some(404);
    }
    if err.code == Some(11000) {
      message, statusCode := Some("Duplicate field value entered"), Some(400);
    }
    if err.name == "ValidationError" {
      message, statusCode := Some(Text.Join(err.fieldMessages, ", ")), Some(400);
    }
    if err.name == "JsonWebTokenError" {
      message, statusCode := Some("Invalid token"), Some(401);
    }
    if err.name == "TokenExpiredError" {
      message, statusCode := Some("Token expired"), Some(401);
    }
    var status := if statusCode.Some? && statusCode.value != 0 then statusCode.value else 500;
    var text := if message.Some? && message.value != "" then message.value else "Server Error";
    var stack := if nodeEnv == "development" then Some(err.stack) else None;
    res := Response(status, false, text, stack);
  }

  /** A validation failure raised by a save or an update is answered with 400 and the
      field messages joined by ", ". */
  lemma ValidationIs400(summary: string, failures: seq<(string, string)>, nodeEnv: string)
    requires failures != [] && failures[0].1 != ""
    ensures var res := Translate(ValidationFailure(summary, failures), nodeEnv);
      && res.status == 400
      && res.message == Text.Join(ValidationFailure(summary, failures).fieldMessages, ", ")
  {
    var e := ValidationFailure(summary, failures);
    assert Winner(e) == ValidationRule;
    assert |Text.Join(e.fieldMessages, ", ")| >= |e.fieldMessages[0]| > 0;
  }

  /** An error from the store carries no status, so it is answered with 500 and its own
      message. */
  lemma StoreErrorIs500(message: string, nodeEnv: string)
    requires message != ""
    ensures Translate(StoreError(message), nodeEnv).status == 500
    ensures Translate(StoreError(message), nodeEnv).message == message
  {
    assert Winner(StoreError(message)) == NoRule;
  }

  /** A malformed id (CastError) is answered with 404 "Resource not found" unless it also
      carries the duplicate-key code. */
  lemma CastIs404(err: ErrorValue, nodeEnv: string)
    requires err.name == "CastError" && err.code != Some(11000)
    ensures Translate(err, nodeEnv).status == 404
    ensures Translate(err, nodeEnv).message == "Resource not found"
  {
  }

  /** A duplicate key is answered with 400 unless a later check (validation or token)
      overrides it. */
  lemma DuplicateIs400(err: ErrorValue, nodeEnv: string)
    requires err.code == Some(11000)
    requires err.name != "ValidationError" && err.name != "JsonWebTokenError" && err.name != "TokenExpiredError"
    ensures Translate(err, nodeEnv).status == 400
    ensures Translate(err, nodeEnv).message == "Duplicate field value entered"
  {
  }
}
