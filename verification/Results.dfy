/** The option, result and error types that several modules use. */
module Results {

  datatype Option<+T> = None | Some(value: T)

  datatype Result<+T, +E> = Ok(value: T) | Err(error: E)

  /** An operation on a file or a connection that failed, for whatever reason. */
  datatype IoError = IoError
}
