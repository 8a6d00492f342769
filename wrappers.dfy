/** Option and Result values shared by the other modules. */
module Wrappers {

  datatype Option<+T> = None | Some(value: T)

  /** A value or an error, for the operations that return `(T, error)`. */
  datatype Result<+T, +E> = Ok(value: T) | Err(error: E)
}
