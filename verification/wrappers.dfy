/** Failure-compatible wrappers shared by the modules of the model. */
module Wrappers {

  /** An optional value: `None` plays JavaScript's `undefined`/`null`. */
  datatype Option<+T> = None | Some(value: T)

  /** The value of a computation that either returns or throws. */
  datatype Result<+R, +E> = Success(value: R) | Failure(error: E)
}
