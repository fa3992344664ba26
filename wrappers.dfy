/** Failure-carrying datatypes shared by the client and server models. */
module Wrappers {

  /** A Python value that may be `None`, or a C pointer that may be NULL. */
  datatype Option<+T> = None | Some(value: T)

  /** An operation that either completes or raises the given error. */
  datatype Outcome<+E> = Pass | Fail(error: E)

  /** An operation that either returns a value or raises the given error. */
  datatype Result<+T, +E> = Success(value: T) | Failure(error: E)
}
