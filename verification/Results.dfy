/** The shapes in which the model returns absent values and raised exceptions. */
module Results {

  /** A value that may be missing, Python's `None`. */
  datatype Option<+T> = None | Some(value: T)

  /** What a call returns, or the exception it raises. */
  datatype Result<+T, +E> = Ok(value: T) | Err(error: E)
}
