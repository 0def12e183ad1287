/** Optional values and results with an error side, used for nullable columns
    and for operations that can fail. */
module Wrappers {

  /** A value that may be absent (SQL NULL, or a JavaScript property that is not set). */
  datatype Option<+T> = None | Some(value: T)

  /** The outcome of an operation that either yields a value or reports an error. */
  datatype Result<+T, +E> = Ok(value: T) | Err(error: E)
}
