/** Result types for the source's optional values and exceptions. */
module Wrappers {

  /** A value that may be absent: `T | None` in the source. */
  datatype Option<+T> = None | Some(value: T)

  /** The outcome of a call that either returns or raises. */
  datatype Result<+T, +E> = Success(value: T) | Failure(error: E)
}
