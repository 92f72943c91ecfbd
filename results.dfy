/** Option and Result values shared by the models of the scripts. */
module Results {

  datatype Option<+T> = None | Some(value: T)

  /** A computation that either produces a value or raises the named error. */
  datatype Result<+T, +E> = Ok(value: T) | Err(error: E)
}
