/** Nullable values and fallible results, as the JavaScript and Rust sources use them. */
module Wrappers {

  /** A value that may be absent: JavaScript's null/undefined, Rust's Option. */
  datatype Option<+T> = None | Some(value: T) {

    /** `x ?? fallback` in JavaScript, `unwrap_or` in Rust. */
    function GetOr(fallback: T): T {
      match this
      case Some(v) => v
      case None => fallback
    }

    /** The first present value of `this` and `other`. */
    function OrElse(other: Option<T>): Option<T> {
      match this
      case Some(_) => this
      case None => other
    }
  }

  /** Rust's Result: a success value or an error value. */
  datatype Result<+T, +E> = Ok(value: T) | Err(error: E)
}
