/** Option and Result, the two failure-carrying values the model uses. */
module Wrappers {

  /** Python's `X | None`: a value that may be absent. */
  datatype Option<+T> = None | Some(value: T)

  /** The outcome of an operation that raises in the source. */
  datatype Result<+T, +E> = Success(value: T) | Failure(error: E)
}
