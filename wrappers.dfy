/** Failure-carrying values shared by the store and the dashboard layout. */
module Wrappers {

  /** A value that may be absent: TypeScript's `T | undefined | null`. */
  datatype Option<+T> = None | Some(value: T)

  /** The outcome of a store call that returns a value or throws. */
  datatype Result<+R, +E> = Success(value: R) | Failure(error: E)

  /** The outcome of an async function that returns nothing or throws. */
  datatype Outcome<+E> = Pass | Fail(error: E)
}
