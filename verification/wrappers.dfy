/** Failure-compatible wrappers used across the model: an optional value and
    a value-or-error result (the latter stands for a resolver that either
    returns or throws). */
module Wrappers {

  datatype Option<+T> = None | Some(value: T)

  datatype Result<+T, +E> = Success(value: T) | Failure(error: E)
}
