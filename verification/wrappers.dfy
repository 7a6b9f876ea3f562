/** Failure-carrying result types shared by the formatter and the configuration parser. */
module Wrappers {

  /** A value that may be absent; Rust's `Option`. */
  datatype Option<+T> = None | Some(value: T)

  /** Either a value or an error; Rust's `Result`. */
  datatype Result<+T, +E> = Ok(value: T) | Err(error: E)
}
