/** Small datatypes shared by the models. */
module Common {
  /** A value that may be null or undefined. */
  datatype Option<+T> = None | Some(value: T)

  /** What a function that may throw returns. */
  datatype Result<+T, +E> = Ok(value: T) | Err(error: E)
}
