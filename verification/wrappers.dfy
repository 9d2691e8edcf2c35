/** Optional values and fallible results, shared by every module of the model. */
module Wrappers {

  /** A value that may be absent (Python's `None`). */
  datatype Option<+T> = None | Some(value: T)

  /** The outcome of an operation that may fail with an error message. */
  datatype Result<+T, +E> = Success(value: T) | Failure(error: E)
}
