/** Failure-compatible result types shared by the modules of this model. */
module Wrappers {

  /** A value that may be absent: JavaScript's `null`/`undefined` on a read. */
  datatype Option<+T> = None | Some(value: T)

  /** A value or the error that a JavaScript `throw` would have raised. */
  datatype Result<+T, +E> = Ok(value: T) | Err(error: E)

  /** The outcome of an operation that returns nothing but may throw. */
  datatype Outcome<+E> = Pass | Fail(error: E)
}
