/** Failure-carrying values shared by the clock and grid modules. */
module Wrappers {

  datatype Option<+T> = None | Some(value: T)

  /** Either a value or the error that stopped the computation (the source raises it). */
  datatype Result<+T, +E> = Ok(value: T) | Err(error: E)
}
