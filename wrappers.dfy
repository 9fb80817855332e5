/** Failure-carrying wrappers shared by the modules of this model. */
module Wrappers {

  /** An optional value: Rust's `Option`, C++'s "iterator at end". */
  datatype Option<+T> = None | Some(value: T)

  /** A value or an error: Rust's `Result`. */
  datatype Result<+T, +E> = Ok(value: T) | Err(error: E)
}
