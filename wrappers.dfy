/** Failure-carrying result types shared by the modules of this model. */
module Wrappers {

  datatype Option<+T> = None | Some(value: T)

  /** The outcome of an operation that can raise: the value, or the error it raised. */
  datatype Result<+T, +E> = Success(value: T) | Failure(error: E)
}
