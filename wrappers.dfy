/** Option and Result, the two ways the core reports "nothing" and "failed". */
module Wrappers {

  /** A lookup result: C#'s `null` from `FirstOrDefault` is `None`. */
  datatype Option<+T> = None | Some(value: T)

  /** An operation that either yields a value or raises one of the core's exceptions. */
  datatype Result<+T, +E> = Success(value: T) | Failure(error: E)
}
