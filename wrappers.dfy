/** Wrappers standing in for Java's null references and exceptions. */
module Wrappers {

  /** A value that may be absent (Java's possibly-null reference). */
  datatype Option<+T> = None | Some(value: T)

  /** The outcome of a Java call that either returns a value or throws. */
  datatype Result<+T, +E> = Success(value: T) | Failure(error: E)

  /** The outcome of a Java `void` call that may throw. */
  datatype Outcome<+E> = Pass | Fail(error: E)
}
