/** Failure-compatible result types used for the exceptions the source raises. */
module Wrappers {

  datatype Option<+T> = None | Some(value: T)

  /** Either a value, or the error the source would raise instead. */
  datatype Result<+R, +E> = Success(value: R) | Failure(error: E)
}
