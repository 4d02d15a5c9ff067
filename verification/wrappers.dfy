/** Failure-carrying result types used across the model. */
module Wrappers {

  datatype Option<+T> = None | Some(value: T)

  /** A computation that produces a value or fails with an error. */
  datatype Result<+T, +E> = Ok(value: T) | Err(error: E)

  /** A computation that only succeeds or fails, like Rust's `Result<()>`. */
  datatype Outcome<+E> = Pass | Fail(error: E)
}
