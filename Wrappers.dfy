/** Failure-carrying values shared by every module of the model. */
module Wrappers {

  /** A value that may be absent: JavaScript's `undefined`, or an optional argument. */
  datatype Option<+T> = None | Some(value: T)

  /** The outcome of a step that can throw: its value, or the message shown for the failure. */
  datatype Result<+T, +E> = Success(value: T) | Failure(error: E)
}
