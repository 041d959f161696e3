/** Option and Result, the two failure-carrying datatypes the model uses. */
module Wrappers {

  /** A value that may be missing (a JavaScript `undefined` or `null`). */
  datatype Option<+T> = None | Some(value: T)

  /** The settled state of a promise: fulfilled with a value, or rejected with an error. */
  datatype Result<+T, +E> = Ok(value: T) | Err(error: E)

  function Min(a: int, b: int): int
  {
    if a <= b then a else b
  }
}
