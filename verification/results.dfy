/** Failure-carrying datatypes used in place of the exceptions of the deployer. */
module Results {

  /** A value that may be absent (a file that may not exist). */
  datatype Option<+T> = None | Some(value: T)

  /** Either a value or the error the script raises instead of returning one. */
  datatype Result<+T, +E> = Ok(value: T) | Err(error: E)
}
