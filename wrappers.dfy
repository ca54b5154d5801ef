/** Option and Result, as in Rust, shared by the other modules. */
module Wrappers {

  /** An optional value: Rust's `Option<T>`. */
  datatype Option<+T> = None | Some(value: T)

  /** The outcome of an operation that can fail: Rust's `Result<T, E>`. */
  datatype Result<+T, +E> = Ok(value: T) | Err(error: E)
}
