/** Failure-carrying values shared by the pricing modules. */
module Wrappers {

  datatype Option<+T> = None | Some(value: T)

  /** The value of a successful step, or the error that stopped it. */
  datatype Result<+T, +E> = Ok(value: T) | Err(error: E)
}
