/** Failure-carrying result types shared by the whole model. */
module Wrappers {

  /** A value that may be missing. */
  datatype Option<+T> = None | Some(value: T)

  /** A value or the error that stopped the computation. */
  datatype Result<+T, +E> = Success(value: T) | Failure(error: E)
}
