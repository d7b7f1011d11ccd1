/** Optional values and results used across the model. */
module Wrappers {

  /** A value that may be absent: an unvoiced pitch frame, an optional message attachment. */
  datatype Option<+T> = None | Some(value: T)

  /** The outcome of a step that either yields a value or raises an error. */
  datatype Result<+R, +E> = Success(value: R) | Failure(error: E)
}
