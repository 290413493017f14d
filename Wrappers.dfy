/** Failure-compatible wrappers used for the core's "no value" and "error" returns. */
module Wrappers {

  /** A value that may be absent: `std::optional`, or a pointer that may be null. */
  datatype Option<+T> = None | Some(value: T)

  /** A value or the message of the exception the source throws instead. */
  datatype Result<+T> = Success(value: T) | Failure(error: string)
}
