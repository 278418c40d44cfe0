/**
 * The shapes in which the model returns Go's `(value, error)` pairs:
 * `Option` for a lone error or a possibly absent value, `Result` for a
 * value or an error.
 */
module Wrappers {

  datatype Option<+T> = None | Some(value: T)

  datatype Result<+T, +E> = Ok(value: T) | Err(error: E)
}
