/** The two result types every component shares. */
module Wrappers {

  datatype Option<+T> = None | Some(value: T)

  /** A value, or the refusal the program throws or fails with. */
  datatype Result<+T, +E> = Ok(value: T) | Err(error: E)
}
