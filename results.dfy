/** Failure-carrying results, standing in for Go's `(value, error)` pairs. */
module Results {

  /** A value or an error. */
  datatype Result<+T, +E> = Ok(value: T) | Err(error: E)

  /** Success or an error, for Go functions that return only `error`. */
  datatype Outcome<+E> = Pass | Fail(error: E)
}
