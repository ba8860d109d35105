/** Failure-carrying result types: the model's stand-in for Java's null and for thrown exceptions. */
module Wrappers {

  /** A value that may be absent, as a Java reference that may be null. */
  datatype Option<+T> = None | Some(value: T)

  /** A computed value, or the exception that was thrown instead. */
  datatype Result<+R, +E> = Success(value: R) | Failure(error: E)

  /** A void call that returned normally, or the exception that it threw. */
  datatype Outcome<+E> = Pass | Fail(error: E)
}
