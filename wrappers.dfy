/** Failure-carrying values standing in for Java's null references and thrown exceptions. */
module Wrappers {

  /** A Java reference that may be null: `None` is null. */
  datatype Option<+T> = None | Some(value: T)

  /** A call that either returns a value or throws. */
  datatype Result<+T, +E> = Ok(value: T) | Err(error: E)

  /** A call without a result (a `void` method) that may throw. */
  datatype Outcome<+E> = Pass | Fail(error: E)

  /** The exception classes the modelled code throws or catches. */
  datatype Exception =
    | IllegalArgument   // java.lang.IllegalArgumentException
    | IllegalState      // java.lang.IllegalStateException
    | IOException       // java.io.IOException
    | NullPointer       // java.lang.NullPointerException
}
