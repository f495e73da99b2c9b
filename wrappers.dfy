/** Optional values and results with an error, for the source's `null` returns and thrown errors. */
module Wrappers {

  /** A value that may be absent: the source's `T | null`. */
  datatype Option<+T> = None | Some(value: T)

  /** A value or the error the source would throw instead of returning. */
  datatype Result<+T, +E> = Success(value: T) | Failure(error: E)
}
