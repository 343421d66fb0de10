/** Option and Result wrappers used across the gateway model in place of
    Go's nil values and (value, error) pairs. */
module Results {

  /** A value that may be absent (a nil error, an unset field). */
  datatype Option<+T> = None | Some(value: T)

  /** The outcome of an operation that returns a value or an error. */
  datatype Result<+T, +E> = Success(value: T) | Failure(error: E)
}
