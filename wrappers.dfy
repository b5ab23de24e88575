/** Failure-carrying values standing in for Java's null returns and checked exceptions. */
module Wrappers {

  /** A value that may be absent (Java's `null`). */
  datatype Option<+T> = None | Some(value: T)

  /** A value or the exception that was thrown instead of returning it. */
  datatype Result<+R, +E> = Success(value: R) | Failure(error: E)

  /** A `void` call that either returned normally or threw `error`. */
  datatype Outcome<+E> = Pass | Fail(error: E)
}
