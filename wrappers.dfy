/** Option and Result: the nullable values and thrown errors of the grid core. */
module Wrappers {

  /** A value that may be absent (`T | null` in the grid's API). */
  datatype Option<+T> = None | Some(value: T) {
    function GetOr(default: T): T {
      match this
      case Some(v) => v
      case None => default
    }
  }

  /** The outcome of an operation that may throw: `Err` stands for the exception. */
  datatype Result<+T, +E> = Ok(value: T) | Err(error: E)

  /** The outcome of a throwing operation that returns nothing. */
  datatype Outcome<+E> = Pass | Fail(error: E)
}
