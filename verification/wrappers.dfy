/** Failure-carrying datatypes shared by the model. */
module Wrappers {

  /** A value that may be absent. */
  datatype Option<+T> = None | Some(value: T)

  /** Either a successful value or an error description. */
  datatype Result<+R, +E> = Success(value: R) | Failure(error: E)
}
