/** Option and Result values: Go's nil-able values and its (value, error) returns. */
module Wrappers {

  /** A value that may be absent (a nil slice, a nil error). */
  datatype Option<+T> = None | Some(value: T)

  /** The outcome of a Go function that returns a value and an error. */
  datatype Result<+T, +E> = Success(value: T) | Failure(error: E)
}
