/** Failure-compatible wrappers used throughout the model: a Go nil pointer or
    an absent value is `None`, a call returning `(value, error)` is a `Result`. */
module Wrappers {

  datatype Option<+T> = None | Some(value: T)

  datatype Result<+R, +E> = Success(value: R) | Failure(error: E)
}
