/** Failure-carrying results shared by the whole model. */
module Wrappers {

  /** A value or nothing (a missing dictionary key, an unparsable string). */
  datatype Option<+T> = None | Some(value: T)

  /** A value or the exception the source raises instead of returning one. */
  datatype Result<+T, +E> = Ok(value: T) | Err(error: E)

  /** An operation run for its effect: it completes or raises. */
  datatype Outcome<+E> = Pass | Fail(error: E)

  function Min(a: int, b: int): int { if a <= b then a else b }

  function Max(a: int, b: int): int { if a <= b then b else a }
}
