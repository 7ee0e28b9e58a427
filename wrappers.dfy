/** Option and result datatypes shared by the other modules. */
module Wrappers {

  /** A value that may be absent: Python's `None` or a value. */
  datatype Option<+T> = None | Some(value: T)

  /** The result of a call that either returns a value or raises. */
  datatype Result<+T, +E> = Success(value: T) | Failure(error: E)

  /** The result of a check that either passes or raises. */
  datatype Outcome<+E> = Pass | Fail(error: E)
}
