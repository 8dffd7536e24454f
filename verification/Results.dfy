/** Outcome of an operation that the program may reject by throwing. */
module Results {
  datatype Result<+T, +E> = Ok(value: T) | Err(error: E)
}
