/** Values that may be absent and computations that may fail. */
module Results {

  /** A value that may be missing: a NaN cell, an absent JSON key, a model file not found. */
  datatype Option<+T> = None | Some(value: T)

  /** The outcome of an operation that either produces a value or reports why it could not. */
  datatype Result<+T, +E> = Ok(value: T) | Err(error: E)
}
