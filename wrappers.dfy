/** Optional values and results: Swift's `Optional` and the `throws`/`Result` error paths. */
module Wrappers {

  datatype Option<+T> = None | Some(value: T)

  /** The outcome of an operation that may throw: its value or the error thrown. */
  datatype Result<+T, +E> = Success(value: T) | Failure(error: E)
}
