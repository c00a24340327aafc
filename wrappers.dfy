/** Option and Result values used across the model. */
module Wrappers {

  datatype Option<+T> = None | Some(value: T)

  /** The result of an operation that may abort the run with an error of type E. */
  datatype Result<+T, +E> = Ok(value: T) | Err(error: E)
}
