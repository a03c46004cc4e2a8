/** Option and Result: the failure-carrying values every handler returns. */
module Wrappers {

  datatype Option<+T> = None | Some(value: T)

  /** A computation that either produced a value or raised an error (its message). */
  datatype Result<+T, +E> = Success(value: T) | Failure(error: E)
}
