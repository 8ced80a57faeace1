/** Option and Result: the model's stand-ins for Java's null and for the exceptions the code throws. */
module Wrappers {

  /** A value that may be absent (Java's null). */
  datatype Option<+T> = None | Some(value: T)

  /** The outcome of an operation that may fail. */
  datatype Result<+R, +E> = Success(value: R) | Failure(error: E)
}
