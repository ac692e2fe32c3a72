/** Failure-carrying result types shared by the line-list modules. */
module Wrappers {

  /** A value that may be absent (a dictionary lookup that misses, a parse that fails). */
  datatype Option<+T> = None | Some(value: T)

  /** The outcome of a computation that either produces a value or raises an error. */
  datatype Result<+T, +E> = Success(value: T) | Failure(error: E)

  /** The outcome of a computation that only changes state: it passes or raises an error. */
  datatype Outcome<+E> = Pass | Fail(error: E)
}
