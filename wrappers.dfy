/** Optional values and results with an error, as used throughout the model. */
module Wrappers {

  /** A value that may be absent (Python's `X | None`). */
  datatype Option<+T> = None | Some(value: T)

  /** A value or the error raised instead of returning it. */
  datatype Result<+T, +E> = Success(value: T) | Failure(error: E)
}
