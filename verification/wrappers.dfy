/** Option and Result datatypes used for the page's optional inputs and its
    halting outcomes. */
module Wrappers {

  /** A value that may be absent (Python's `None`). */
  datatype Option<+T> = None | Some(value: T)

  /** Either a value or the reason the computation stopped. */
  datatype Result<+T, +E> = Ok(value: T) | Err(error: E)
}
