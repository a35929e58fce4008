/** Failure-carrying values shared by every module of the model: Go's
    `(value, error)` returns and nil-able pointers. */
module Wrappers {

  /** A value that may be absent (a Go pointer that may be nil). */
  datatype Option<+T> = None | Some(value: T)

  /** A Go `(value, error)` return: either the value or the error. */
  datatype Result<+T, +E> = Success(value: T) | Failure(error: E)

  /** A Go `error` return without a value: nil or an error. */
  datatype Outcome<+E> = Pass | Fail(error: E)
}
