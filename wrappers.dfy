/** Option, Result and Outcome: absent values and failure paths as values. */
module Wrappers {

  /** A value that may be absent, standing in for Java's null. */
  datatype Option<+T> = None | Some(value: T)

  /** A computed value or the error that stopped the computation. */
  datatype Result<+T, +E> = Ok(value: T) | Err(error: E)

  /** Completion of an operation with no value, or the error it raised. */
  datatype Outcome<+E> = Pass | Fail(error: E)
}
