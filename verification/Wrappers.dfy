/** Failure-carrying results used by every module of the project. */
module Wrappers {

  datatype Option<+T> = None | Some(value: T)

  /** The value of a call that can fail, standing for a Go pair `(value, error)`. */
  datatype Result<+T, +E> = Ok(value: T) | Err(error: E)
}
