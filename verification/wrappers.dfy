/** Option and Result values for lookups that can miss and operations that can fail. */
module Wrappers {

  /** A value that may be absent; stands in for a nil result. */
  datatype Option<+T> = None | Some(value: T)

  /** Either a new value or the error an operation reports. */
  datatype Result<+R, +E> = Success(value: R) | Failure(error: E)
}
