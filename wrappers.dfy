/** The two failure-carrying shapes used throughout the model: a value that may be
    absent (JavaScript `null`/`undefined`) and the outcome of an operation that may throw. */
module Wrappers {
  datatype Option<+T> = None | Some(value: T)

  datatype Result<+T, +E> = Success(value: T) | Failure(error: E)
}
