/** Option and Result, used for the toolkit's exceptions and missing values. */
module Wrappers {

  datatype Option<+T> = None | Some(value: T)

  /** A computation that either produced a value or raised `error`. */
  datatype Result<+T, +E> = Ok(value: T) | Failure(error: E)
}
