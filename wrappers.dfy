/** Failure-carrying return values, standing in for Python's exceptions. */
module Wrappers {

  datatype Option<+T> = None | Some(value: T)

  datatype Result<+T, +E> = Success(value: T) | Failure(error: E)

  /** A check that either passes or fails with an error (a function that returns nothing or raises) */
  datatype Outcome<+E> = Pass | Fail(error: E)
}
