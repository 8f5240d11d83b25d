/** Option and Result, used wherever the source returns null/undefined or throws. */
module Wrappers {

  datatype Option<+T> = None | Some(value: T)

  /** Success carries the value; Failure carries what the source would throw (its message). */
  datatype Result<+R, +E> = Success(value: R) | Failure(error: E)
}
