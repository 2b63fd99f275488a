/** Option and Result, the two failure-carrying wrappers the model uses for Go's
    nil results and (value, error) pairs. */
module Base {
  datatype Option<+T> = None | Some(value: T)

  datatype Result<+T, +E> = Ok(value: T) | Err(error: E)
}
