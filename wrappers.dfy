/** Option and Result, and the failures the authentication service can end a request with. */
module Wrappers {

  datatype Option<+T> = None | Some(value: T) {
    /** The value, or `default` when there is none (Python's `x if x is not None else default`). */
    function GetOr(default: T): T {
      match this
      case Some(v) => v
      case None => default
    }
  }

  /** One constraint a pydantic model found violated. */
  datatype Problem =
    | TooShort(field: string, minLength: nat)  // Field(min_length=...)
    | Missing(field: string)                   // a required field without a value
    | NotPositive(field: string)               // PositiveInt
    | ValueError(message: string)              // raised by a model validator

  /** Everything that ends a request (or, for settings, the start-up) without a result. */
  datatype Failure =
    | HttpException(status: int, detail: string)   // fastapi.HTTPException raised by the core
    | RequestValidationError(problems: seq<Problem>) // the request body failed its schema
    | ValidationError(problems: seq<Problem>)      // pydantic raised inside a handler or at start-up
    | DatabaseError(reason: string)                // the database refused a write at flush
    | TypeError(message: string)                   // a call with the wrong number of arguments

  /** The HTTP status FastAPI answers with for each failure; anything not handled becomes 500. */
  function StatusCode(f: Failure): int {
    match f
    case HttpException(status, _) => status
    case RequestValidationError(_) => 422
    case ValidationError(_) => 500
    case DatabaseError(_) => 500
    case TypeError(_) => 500
  }

  datatype Result<+T> = Ok(value: T) | Err(error: Failure) {
    predicate IsFailure() {
      Err?
    }

    function PropagateFailure<U>(): Result<U>
      requires Err?
    {
      Err(error)
    }

    function Extract(): T
      requires Ok?
    {
      value
    }
  }
}
