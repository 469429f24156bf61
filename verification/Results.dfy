/** Outcomes that a caller has to inspect: Go's (value, error) and (value, ok) pairs. */
module Results {
  datatype Option<+T> = None | Some(value: T)

  datatype Result<+T, +E> = Ok(value: T) | Err(error: E)

  type Bytes = string
}
