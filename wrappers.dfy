/** Failure-carrying return types shared by every module of the model. */
module Wrappers {

  /** A value that may be absent: JavaScript's `null` or `undefined` where the source accepts them. */
  datatype Option<+T> = None | Some(value: T)

  /** The outcome of a call that may throw: `Failure` carries the thrown error's message. */
  datatype Result<+T, +E> = Success(value: T) | Failure(error: E)
}
