/** Failure-carrying return values shared by the loader and the dial program. */
module Wrappers {

  datatype Option<+T> = None | Some(value: T)

  /** The outcome of an effect that either succeeds with a value or fails with a typed error. */
  datatype Result<+R, +E> = Success(value: R) | Failure(error: E)
}
