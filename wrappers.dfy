/** Optional values and results with an error path, used for JavaScript's
    `undefined`/`null` results and for thrown errors. */
module Wrappers {

  /** A value that may be absent (`undefined` or `null` in the source). */
  datatype Option<+T> = None | Some(value: T)

  /** A value, or the error the source would throw instead. */
  datatype Result<+T, +E> = Ok(value: T) | Err(error: E)
}
