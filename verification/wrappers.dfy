/** Optional values and success/failure results, used for absent feature
    values and for the error paths of the request handler. */
module Wrappers {

  /** A value that may be absent: Feast's `None`, a missing column. */
  datatype Option<+T> = None | Some(value: T)

  /** The outcome of an operation that can fail with an error of type E. */
  datatype Result<+T, +E> = Success(value: T) | Failure(error: E)
}
