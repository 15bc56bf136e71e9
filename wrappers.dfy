/** Failure-carrying result types, used where the Go code returns `(value, error)` or `error`. */
module Wrappers {

  datatype Option<+T> = None | Some(value: T)

  /** A value or an error, for Go's `(*T, error)` returns. */
  datatype Result<+T, +E> = Success(value: T) | Failure(error: E)

  /** Success without a value, for Go's plain `error` returns. */
  datatype Outcome<+E> = Pass | Fail(error: E)
}
