/** Result types shared by the models. */
module Wrappers {
  /** A value that a column, a lookup or an optional argument may lack. */
  datatype Option<+T> = None | Some(value: T)

  /** The outcome of an operation that raises in the original program. */
  datatype Result<+T, +E> = Ok(value: T) | Err(error: E)
}
