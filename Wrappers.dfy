/** Option and Result: Java's nullable references and thrown
    IllegalArgumentExceptions, as values. */
module Wrappers {

  /** A value that may be absent, standing for a Java reference that may be null. */
  datatype Option<+T> = None | Some(value: T)

  /** Either a computed value or the error that the Java code throws instead. */
  datatype Result<+R, +E> = Success(value: R) | Failure(error: E)
}
