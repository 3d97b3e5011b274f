/** Option and Result, used where the PHP code uses a nullable value or throws. */
module Wrappers {

  /** A value that may be absent (PHP `null`). */
  datatype Option<+T> = None | Some(value: T)

  /** The outcome of an operation that either produces a value or throws `error`. */
  datatype Result<+T, +E> = Ok(value: T) | Err(error: E)
}
