/** Option and Result, the two failure-carrying shapes the model uses in
    place of Python's None and raised exceptions. */
module Wrappers {

  /** Python's `None` or a value. */
  datatype Option<+T> = None | Some(value: T)

  /** A value, or the exception an operation raises. */
  datatype Result<+T, +E> = Success(value: T) | Failure(error: E)
}
