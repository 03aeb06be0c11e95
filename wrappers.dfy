/** The Option and Result datatypes used across the model. */
module Wrappers {

  /** A value that may be absent: an empty table cell, a lookup that found nothing. */
  datatype Option<+T> = None | Some(value: T)

  /** The outcome of an operation that may raise instead of returning. */
  datatype Result<+T, +E> = Success(value: T) | Failure(error: E)
}
