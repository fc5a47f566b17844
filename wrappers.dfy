/**
 * Option, Result and Outcome: the three ways an operation of the
 * EnzymeML suite can finish. `Outcome` separates a Rust panic
 * (`unwrap`/`expect` on a missing value) from an ordinary return.
 */
module Wrappers {

  datatype Option<T> = None | Some(value: T)

  datatype Result<T, E> = Ok(value: T) | Err(error: E)

  /** How a Rust function finished: it returned `value`, or it panicked with `message`. */
  datatype Outcome<T> = Returned(value: T) | Panicked(message: string)

  /** The unit value `()` of Rust. */
  datatype Unit = Unit
}
