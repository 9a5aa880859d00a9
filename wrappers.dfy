/** Failure-compatible wrappers shared by the two components. */
module Wrappers {

  datatype Option<+T> = None | Some(value: T)

  /** The outcome of an operation that can raise one of the source's exceptions. */
  datatype Result<+T, +E> = Success(value: T) | Failure(error: E)

  /** The outcome of an operation that only has side effects. */
  datatype Outcome<+E> = Pass | Fail(error: E)
}
