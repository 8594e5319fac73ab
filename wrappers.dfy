/** Option, Result and Outcome: the model's rendering of Go's `(*T, error)`,
    `(T, error)` and `error` return shapes. */
module Wrappers {

  /** A pointer result that may be nil. */
  datatype Option<+T> = None | Some(value: T)

  /** A value or an error. */
  datatype Result<+T, +E> = Success(value: T) | Failure(error: E)

  /** A bare `error` result: nil (Pass) or an error (Fail). */
  datatype Outcome<+E> = Pass | Fail(error: E)
}
