/** Optional values and results that carry an error, as used by every module of the model. */
module Wrappers {
  /** A value that may be absent (a JavaScript `null` or `undefined`). */
  datatype Option<+T> = None | Some(value: T)

  /** The outcome of an operation that may throw: `Err` stands for the thrown exception. */
  datatype Result<+T, +E> = Ok(value: T) | Err(error: E)
}
