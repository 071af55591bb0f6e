/** Failure-carrying values shared by the whole model. */
module Wrappers {

  /** A value that may be missing: a pandas cell that holds NaN is `None`. */
  datatype Option<+T> = None | Some(value: T)

  /** The outcome of a step that the scripts can abort with an exception. */
  datatype Result<+T, +E> = Ok(value: T) | Err(error: E)
}
