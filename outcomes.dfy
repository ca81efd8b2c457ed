/** Optional values, results, and the values a JavaScript `catch` block receives. */
module Outcomes {

  datatype Option<+T> = None | Some(value: T)

  datatype Result<+T, +E> = Success(value: T) | Failure(error: E)

  /** What a `catch (err)` clause can receive: an `Error` instance with its
      message, or any other thrown value (a plain object, a DOM error that does
      not inherit from `Error`, ...). */
  datatype Thrown = ErrorObject(message: string) | NonErrorValue

  /** `err instanceof Error ? err.message : fallback`, the error-to-text mapping
      every handler of the application uses. */
  function MessageOr(err: Thrown, fallback: string): (msg: string)
    ensures err.ErrorObject? ==> msg == err.message
    ensures err.NonErrorValue? ==> msg == fallback
  {
    match err
    case ErrorObject(m) => m
    case NonErrorValue => fallback
  }
}
