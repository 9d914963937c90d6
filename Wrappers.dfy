/** Failure-carrying result types shared by the model's modules. */
module Wrappers {

  /** A value that may be absent (an omitted optional argument). */
  datatype Option<+T> = None | Some(value: T)

  /** A value, or the error that a call throws instead of returning it. */
  datatype Result<+R, +E> = Success(value: R) | Failure(error: E)

  /** The outcome of a call that returns nothing, or the error it throws. */
  datatype Outcome<+E> = Pass | Fail(error: E)
}
