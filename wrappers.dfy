/** Failure-carrying values shared by the other modules. */
module Wrappers {

  datatype Option<+T> = None | Some(value: T)

  /** A computed value, or the reason it could not be computed. */
  datatype Result<+T, +E> = Ok(value: T) | Err(error: E)

  /** The outcome of an operation that computes nothing but may fail. */
  datatype Outcome<+E> = Pass | Fail(error: E)
}
