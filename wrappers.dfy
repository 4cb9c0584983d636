/** Failure-carrying values used by the model in place of JavaScript exceptions and `undefined`. */
module Wrappers {

  datatype Option<+T> = None | Some(value: T)

  /** A value, or the error a JavaScript `throw` would have carried. */
  datatype Result<+T, +E> = Ok(value: T) | Err(error: E)

  /** The outcome of an operation that returns nothing on success. */
  datatype Outcome<+E> = Pass | Fail(error: E)
}
