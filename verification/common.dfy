/** Failure-carrying values shared by every module of the model. */
module Common {

  datatype Option<T> = None | Some(value: T)

  /** The outcome of an operation that the server code performs with exceptions:
      `Ok` is a normal return, `Err` names the exception that was raised. */
  datatype Result<T, E> = Ok(value: T) | Err(error: E)
}
