/** Failure-carrying values used throughout the model, mirroring Rust's
    `Option`, `Result` and `Result<(), E>`. */
module Outcomes {

  /** Rust's `Option<T>`. */
  datatype Option<+T> = None | Some(value: T)

  /** Rust's `Result<T, E>`. */
  datatype Result<+T, +E> = Ok(value: T) | Err(error: E)

  /** Rust's `Result<(), E>`: an operation that yields nothing but may fail. */
  datatype Outcome<+E> = Pass | Fail(error: E)
}
