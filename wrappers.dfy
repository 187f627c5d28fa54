/** Small failure-compatible datatypes used across the model. */
module Wrappers {

  /** A value that may be absent (a TypeScript `T | undefined`). */
  datatype Option<+T> = None | Some(value: T)

  /** The outcome of an operation that returns nothing but may throw. */
  datatype Outcome<+E> = Pass | Fail(error: E)
}
