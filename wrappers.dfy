/** Optional values and results with an error, as the ledger's Java code expresses them with null and exceptions. */
module Wrappers {

  /** A value that may be absent (a Java reference that may be null). */
  datatype Option<+T> = None | Some(value: T)

  /** The outcome of a computation that may raise an error instead of returning. */
  datatype Result<+T, +E> = Ok(value: T) | Err(error: E)
}
