/** A computed value, or the reason the source raises instead of returning one. */
module Results {
  datatype Result<+T, +E> = Ok(value: T) | Err(error: E)
}
