/** Option and Result types shared by every module, and the HTTP error record
    (`ApiError` in backend/src/utils/ApiError.ts) that handlers throw. */
module Wrappers {

  datatype Option<+T> = None | Some(value: T) {
    function GetOr(default: T): T {
      match this
      case Some(v) => v
      case None => default
    }
  }

  /** An error as the error handler turns it into a response: a status code
      and a message. Errors without a status code become 500. */
  datatype ApiError = ApiError(statusCode: int, message: string)

  datatype Result<+T> = Ok(value: T) | Err(error: ApiError) {
    predicate IsFailure() { Err? }

    function PropagateFailure<U>(): Result<U>
      requires Err?
    {
      Err(error)
    }

    function Extract(): T
      requires Ok?
    {
      value
    }
  }

  /** JavaScript truthiness of an optional string: absent and "" are falsy. */
  predicate Truthy(s: Option<string>) {
    s.Some? && s.value != ""
  }

  /** `a || b` on optional strings. */
  function OrElse(a: Option<string>, b: Option<string>): Option<string> {
    if Truthy(a) then a else b
  }
}
