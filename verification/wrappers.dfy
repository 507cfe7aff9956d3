/** Option and Result values used in place of Python's None and exceptions. */
module Wrappers {

  datatype Option<+T> = None | Some(value: T)

  /** Success carries a value; Failure carries the message an exception would have had. */
  datatype Result<+R, +E> = Success(value: R) | Failure(error: E)
}
