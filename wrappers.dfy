/** Failure-carrying values shared by the other modules. */
module Wrappers {

  /** A value that may be missing: JavaScript's `null` / `undefined`. */
  datatype Option<+T> = None | Some(value: T)

  /** The result of an operation that either succeeds with a value or fails with an error. */
  datatype Result<+R, +E> = Ok(value: R) | Err(error: E)

  /** The result of an operation that either succeeds or fails with an error, and returns nothing. */
  datatype Outcome<+E> = Pass | Fail(error: E)
}
