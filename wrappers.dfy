/** Failure-carrying values used in place of Python's exceptions and `None`. */
module Wrappers {

  datatype Option<+T> = None | Some(value: T)

  /** A computation that either produced a value or raised an error. */
  datatype Result<+T, +E> = Ok(value: T) | Err(error: E)

  /** A computation run for its effect: it either completed or raised an error. */
  datatype Outcome<+E> = Pass | Fail(error: E)
}
