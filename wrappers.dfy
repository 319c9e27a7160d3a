/** Option and Result datatypes standing in for Rust's `Option<T>` and `Result<T, E>`. */
module Wrappers {

  /** Rust's `Option<T>`: `None` or `Some(value)`. */
  datatype Option<+T> = None | Some(value: T) {

    /** Rust's `Option::is_some`. */
    predicate IsSome() {
      Some?
    }
  }

  /** Rust's `Result<T, E>`: `Ok(value)` or `Err(error)`. */
  datatype Result<+T, +E> = Ok(value: T) | Err(error: E) {

    /** Rust's `Result::is_ok`. */
    predicate IsOk() {
      Ok?
    }
  }
}
