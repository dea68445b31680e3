/** Option and Result values used in place of Java's null returns and checked exceptions. */
module Wrappers {

  datatype Option<+T> = None | Some(value: T)

  datatype Result<+R, +E> = Ok(value: R) | Err(error: E)

  /** The outcome of a check that returns nothing when it succeeds (a Java `void` method that may throw). */
  datatype Outcome<+E> = Pass | Fail(error: E)
}
