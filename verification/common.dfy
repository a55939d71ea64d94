/** Option and Result shapes shared by the other modules of the model. */
module Common {
  /** A value that may be missing (a null pointer, a file that cannot be opened). */
  datatype Option<+T> = None | Some(value: T)

  /** The outcome of a decoding step: a value, or the reason the load stops. */
  datatype Result<+T, +E> = Ok(value: T) | Err(error: E)
}
