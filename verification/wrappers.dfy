/** Failure-carrying results: a value or an error, and pass-or-fail. */
module Wrappers {

  datatype Option<+T> = None | Some(value: T)

  /** A phase that returns a value or raises (STHROW) an error. */
  datatype Result<+T, +E> = Success(value: T) | Failure(error: E)

  /** A phase that returns nothing or raises an error. */
  datatype Outcome<+E> = Pass | Fail(error: E)
}
