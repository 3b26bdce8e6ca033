/** Optional values and error results, shared by every stage of the pipeline. */
module Wrappers {

  /** A value that may be missing (a pandas NaN cell, an empty reduction). */
  datatype Option<+T> = None | Some(value: T)

  /** The outcome of a stage that can raise. */
  datatype Result<+T, +E> = Success(value: T) | Failure(error: E)
}
