/** Failure-compatible result types used to model the exceptions and null returns of the Java code. */
module Wrappers {

  /** A value that may be absent: `None` stands for Java's null. */
  datatype Option<+T> = None | Some(value: T)

  /** Either a value or the error the Java code would have thrown. */
  datatype Result<+R, +E> = Success(value: R) | Failure(error: E) {
    predicate IsFailure() { Failure? }

    function PropagateFailure<U>(): Result<U, E>
      requires Failure?
    {
      Failure(error)
    }

    function Extract(): R
      requires Success?
    {
      value
    }
  }

  /** The outcome of an operation that returns nothing (a Java `void` method that may throw). */
  datatype Outcome<+E> = Pass | Fail(error: E)
}
