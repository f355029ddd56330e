/** Failure-carrying datatypes used for Go's nil-able pointers and (value, error) returns. */
module Wrappers {

  /** A value that may be absent: Go's nil pointer or nil error. */
  datatype Option<+T> = None | Some(value: T)

  /** Either a value or an error, as an abstract library call returns them. */
  datatype Result<+R, +E> = Success(value: R) | Failure(error: E)
}
