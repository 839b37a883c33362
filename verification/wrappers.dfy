/** Failure-carrying values used for the exceptions the card model raises. */
module Wrappers {

  datatype Option<+T> = None | Some(value: T)

  /** A value or the error that replaced it. */
  datatype Result<+R, +E> = Success(value: R) | Failure(error: E)

  /** Completion of an operation that returns nothing, or the error it raised. */
  datatype Outcome<+E> = Pass | Fail(error: E)
}
