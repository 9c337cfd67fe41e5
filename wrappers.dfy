/** Failure-carrying result types shared by the cache and histogram models. */
module Wrappers {

  datatype Option<+T> = None | Some(value: T)

  /** A computation that yields a value or an error. */
  datatype Result<+R, +E> = Success(value: R) | Failure(error: E)

  /** A computation that yields nothing but may fail. */
  datatype Outcome<+E> = Pass | Fail(error: E)
}
