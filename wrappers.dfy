/** Optional values and success/failure results used throughout the model. */
module Wrappers {

  /** A value that may be absent (Python's `None`, JavaScript's `null`). */
  datatype Option<T> = None | Some(value: T)

  /** The outcome of an operation that returns a value or raises an error. */
  datatype Result<T, E> = Ok(value: T) | Err(error: E)

  /** The outcome of an operation that returns nothing or raises an error. */
  datatype Outcome<E> = Pass | Fail(error: E)
}
