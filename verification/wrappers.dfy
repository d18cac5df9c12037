/** Optional values and success-or-error results, standing in for Java's null
    and exceptions. */
module Wrappers {

  /** A value that may be absent: Java's nullable reference or Optional. */
  datatype Option<+T> = None | Some(value: T)

  /** The outcome of an operation that either returns a value or throws. */
  datatype Result<+T, +E> = Success(value: T) | Failure(error: E)
}
