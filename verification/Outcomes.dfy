/** Optional values and results with an error, shared by the other modules. */
module Outcomes {

  /** A value that may be missing. */
  datatype Option<+T> = None | Some(value: T)

  /** The value of a computation that may fail with an error of type E. */
  datatype Result<+T, +E> = Ok(value: T) | Err(error: E)
}
