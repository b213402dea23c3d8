/** Failure-carrying wrappers used wherever the Go code returns an error
    value, calls log.Fatal, or panics on a missing regexp match. */
module Results {

  /** A value that may be absent. */
  datatype Option<+T> = None | Some(value: T)

  /** A computed value or the error that stopped the computation. */
  datatype Result<+T, +E> = Success(value: T) | Failure(error: E)
}
