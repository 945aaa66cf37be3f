/** Failure-carrying result types used in place of Python's exceptions. */
module Wrappers {

  /** A value or nothing; `None` also stands for Python's `None`. */
  datatype Option<+T> = None | Some(value: T)

  /** A computed value, or the error that was raised instead. */
  datatype Result<+R, +E> = Success(value: R) | Failure(error: E)

  /** A check that either passes or fails with an error; it carries no value. */
  datatype Outcome<+E> = Pass | Fail(error: E)
}
