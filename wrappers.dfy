/** Optional values and error returns, standing for JavaScript's `null` results and thrown errors. */
module Wrappers {

  datatype Option<+T> = None | Some(value: T)

  datatype Result<+R, +E> = Success(value: R) | Failure(error: E)

  /** The outcome of an operation that returns nothing useful but may fail. */
  datatype Outcome<+E> = Pass | Fail(error: E)
}
