/** Failure-carrying wrappers shared by every module of the model. */
module Results {

  /** A value that may be absent (a null pointer, a failed sensor read). */
  datatype Option<+T> = None | Some(value: T)

  /** The outcome of an operation that either yields a value or reports why it could not. */
  datatype Result<+T, +E> = Success(value: T) | Failure(error: E)
}
