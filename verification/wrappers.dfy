/** Failure-carrying datatypes used in place of Python's `None` and exceptions. */
module Wrappers {

  /** An optional value: Python's `None` versus a present value. */
  datatype Option<+T> = None | Some(value: T)

  /** The outcome of an operation that may raise: a value, or the error it raised. */
  datatype Result<+T, +E> = Ok(value: T) | Err(error: E)
}
