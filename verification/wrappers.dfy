/** Stand-ins for Rust's `Option`, `Result` and `Result<(), E>`. */
module Wrappers {

  /** Rust's `Option<T>`. */
  datatype Option<+T> = None | Some(value: T)

  /** Rust's `Result<T, E>`. */
  datatype Result<+T, +E> = Success(value: T) | Failure(error: E)

  /** Rust's `Result<(), E>`: an outcome that carries no success value. */
  datatype Outcome<+E> = Pass | Fail(error: E)
}
