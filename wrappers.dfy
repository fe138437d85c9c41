/** Failure-carrying values used in place of Go's `(value, error)` pairs and nil pointers. */
module Wrappers {

  /** A value that may be absent: Go's nil pointer or nil interface. */
  datatype Option<+T> = None | Some(value: T)

  /** Go's `(value, nil)` or `(zero, err)` return pair. */
  datatype Result<+T, +E> = Ok(value: T) | Err(error: E)

  /** Go's bare `error` return: nil or an error. */
  datatype Outcome<+E> = Pass | Fail(error: E)
}
