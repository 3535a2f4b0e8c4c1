module Results {
  /** What a call that may fail returns. */
  datatype Result<+T, +E> = Ok(value: T) | Err(error: E)
}
