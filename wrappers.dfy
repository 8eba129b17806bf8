/** Failure-carrying datatypes used across the model. */
module Wrappers {

  /** A value that may be absent; Python's `None` is `None` here. */
  datatype Option<+T> = None | Some(value: T)

  /** Either a value or the reason it could not be produced; stands for a raised exception. */
  datatype Result<+T, +E> = Success(value: T) | Failure(error: E)
}
