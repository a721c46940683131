/** Failure-carrying results, used where the source throws a checked error on purpose. */
module Wrappers {

  /** The outcome of an operation that returns nothing but may fail. */
  datatype Outcome<+E> = Pass | Fail(error: E)

  /** The outcome of an operation that returns a value or fails. */
  datatype Result<+T, +E> = Ok(value: T) | Err(error: E)
}
