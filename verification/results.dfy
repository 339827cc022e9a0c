/** The outcome of an operation that can fail, carrying either a value or an error. */
module Results {

  datatype Result<+T, +E> = Ok(value: T) | Err(error: E)
}
