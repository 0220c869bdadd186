/** Option and Result: JavaScript's `undefined`/`null` and a value that may be
    rejected, written as datatypes. */
module Wrappers {

  /** `None` stands for an absent value (`undefined` or `null`). */
  datatype Option<+T> = None | Some(value: T)

  /** The outcome of a check that either accepts a value or reports an error. */
  datatype Result<+T, +E> = Success(value: T) | Failure(error: E)
}
