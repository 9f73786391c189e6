/** Option and Result, the two failure-carrying types the rest of the model uses. */
module Wrappers {

  /** A value that may be absent: Python's `None` or a missing dictionary entry. */
  datatype Option<+T> = None | Some(value: T)

  /** The outcome of an operation that may raise an exception instead of returning. */
  datatype Result<+T, +E> = Ok(value: T) | Err(error: E)
}
