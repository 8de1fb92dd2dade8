/** The one failure-compatible type shared by every model in the project. */
module Option {
  datatype Option<+T> = None | Some(value: T)

  /** A Go `(value, error)` pair whose error side carries the kind of error. */
  datatype Result<+T, +E> = Ok(value: T) | Err(error: E)
}
