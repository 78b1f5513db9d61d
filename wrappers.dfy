/** Failure-carrying result types shared by every module of the model. */
module Wrappers {

  /** A value that may be absent (a Go pointer or a nullable column). */
  datatype Option<+T> = None | Some(value: T)

  /** A value or the error a Go function returns beside it. */
  datatype Result<+T, +E> = Success(value: T) | Failure(error: E)

  /** The outcome of a Go function that returns only an `error`. */
  datatype Outcome<+E> = Pass | Fail(error: E)
}
