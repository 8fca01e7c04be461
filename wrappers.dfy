/** Failure-carrying result types shared by the modules of the link board. */
module Wrappers {

  /** A value that may be absent: a GraphQL nullable argument or a lookup that found nothing. */
  datatype Option<+T> = None | Some(value: T)

  /** The outcome of an operation that either yields a value or throws an error. */
  datatype Result<+T, +E> = Ok(value: T) | Err(error: E)

  /** The outcome of a check that either passes silently or throws an error. */
  datatype Outcome<+E> = Pass | Fail(error: E)
}
