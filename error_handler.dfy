/**
 * The Express error boundary (middleware/errorHandler.js): every error a route hands to
 * `next(error)` becomes a status code and a JSON body `{ error, message }`.
 */
module ErrorHandler {
  import opened Strings

  /** An HTTP error reply: the status code and the body's `error` label and `message`. */
  datatype ErrorResponse = ErrorResponse(status: int, error: string, message: string)

  /**
   * A thrown error, as far as the handler looks at it. JavaScript's falsy values are folded
   * into one representation: `name == ""` and `message == ""` stand for an absent or empty
   * property, `statusCode == 0` for an absent one. `errors` holds the `message` of each item
   * of a Sequelize validation error, in order.
   */
  datatype AppError = AppError(name: string, message: string, statusCode: int, errors: seq<string>)

  const ValidationErrorName := "SequelizeValidationError"
  const UniqueConstraintErrorName := "SequelizeUniqueConstraintError"

  /** The error Sequelize raises when validators reject a row. */
  function ValidationError(messages: seq<string>): AppError
  {
    AppError(ValidationErrorName, "Validation error", 0, messages)
  }

  /** The error Sequelize raises when a unique index rejects a row. */
  function UniqueConstraintError(): AppError
  {
    AppError(UniqueConstraintErrorName, "Validation error", 0, [])
  }

  /** A plain `new Error(message)`: named "Error", no status code. */
  function PlainError(message: string): AppError
  {
    AppError("Error", message, 0, [])
  }

  /** `errorHandler(err, req, res, next)`. */
  function Handle(err: AppError): (r: ErrorResponse)
    ensures err.name == ValidationErrorName ==>
      r == ErrorResponse(400, "Validation Error", Join(err.errors, ", "))
    ensures err.name == UniqueConstraintErrorName ==>
      r == ErrorResponse(409, "Duplicate Entry", "A record with this value already exists")
    ensures err.name != ValidationErrorName && err.name != UniqueConstraintErrorName ==>
      && r.status == (if err.statusCode != 0 then err.statusCode else 500)
      && r.error == (if err.name != "" then err.name else "Internal Server Error")
      && r.message == (if err.message != "" then err.message else "An unexpected error occurred")
    ensures r.status == 500 <==>
      err.name != ValidationErrorName && err.name != UniqueConstraintErrorName
      && (err.statusCode == 0 || err.statusCode == 500)
  {
    if err.name == ValidationErrorName then
      ErrorResponse(400, "Validation Error", Join(err.errors, ", "))
    else if err.name == UniqueConstraintErrorName then
      ErrorResponse(409, "Duplicate Entry", "A record with this value already exists")
    else
      var status := if err.statusCode != 0 then err.statusCode else 500;
      ErrorResponse(status,
        if err.name != "" then err.name else "Internal Server Error",
        if err.message != "" then err.message else "An unexpected error occurred")
  }
}
