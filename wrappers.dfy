/** Failure-compatible result types shared by the model. */
module Wrappers {

  /** An optional value: the outcome of a partial operation such as parsing. */
  datatype Option<+T> = None | Some(value: T)

  /** Either a value or the error kind that stopped the operation. */
  datatype Result<+R, +E> = Success(value: R) | Failure(error: E)
}
