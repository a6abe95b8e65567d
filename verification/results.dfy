/** Failure-carrying wrappers shared by the model: an optional value and a
    success-or-error result standing in for the source's thrown exceptions. */
module Results {

  datatype Option<+T> = None | Some(value: T)

  datatype Result<+T, +E> = Ok(value: T) | Err(error: E)
}
