/** Optional values and error-carrying results shared by the other modules. */
module Results {

  datatype Option<+T> = None | Some(value: T)

  /** The value of a computation, or the error that would have been raised instead. */
  datatype Result<+T, +E> = Ok(value: T) | Err(error: E)
}
