/** Failure-carrying values: the model's stand-ins for Rust's `Option` and `Result`. */
module Results {

  /** An optional value, as returned by an iterator's `next`. */
  datatype Option<+T> = None | Some(value: T)

  /** Either a success value or an error value. */
  datatype Result<+R, +E> = Success(value: R) | Failure(error: E)
}
