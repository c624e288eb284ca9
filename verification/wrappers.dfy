/** Failure-carrying datatypes shared by the other modules. */
module Wrappers {

  /** A value that may be absent; also Go's "nil error" (None) versus an error text (Some). */
  datatype Option<+T> = None | Some(value: T)

  /** Either a value or an error, as a Go function returning `(T, error)`. */
  datatype Result<+T, +E> = Ok(value: T) | Err(error: E)
}
