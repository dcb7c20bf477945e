/** Rust's `std::result::Result`, used by every layer of the model. */
module RustResult {
  datatype Result<T, E> = Ok(value: T) | Err(error: E)
}
