/** Failure-carrying wrappers shared by every module of the model. */
module Base {

  /** A value that may be missing (`null` in the source). */
  datatype Option<+T> = None | Some(value: T)

  /** The outcome of a call that either returns a value or throws. */
  datatype Result<+T, +E> = Ok(value: T) | Err(error: E)
}
