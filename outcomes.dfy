/** Failure-carrying result types shared by the model. */
module Outcomes {

  /** A value that may be absent (a null pointer, a missing entry). */
  datatype Option<+T> = None | Some(value: T)

  /** The outcome of a check that either passes or reports why it failed. */
  datatype Outcome<+E> = Pass | Fail(error: E)

  /** A value on success, an error otherwise. */
  datatype Result<+R, +E> = Success(value: R) | Failure(error: E)
}
