/** Optional values and results with an error path, shared by the crawler and the event store. */
module Wrappers {

  /** A JavaScript value that may be `null`/`undefined` (None) or present (Some). */
  datatype Option<+T> = None | Some(value: T)

  /** The outcome of an operation that can fail instead of returning its value. */
  datatype Result<+R, +E> = Success(value: R) | Failure(error: E)
}
