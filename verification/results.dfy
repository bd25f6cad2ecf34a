/** Small failure-carrying datatypes shared by the model: an optional value,
    and a value-or-error result standing in for Go's `(T, error)` pairs. */
module Results {

  datatype Option<+T> = None | Some(value: T)

  datatype Result<+T, +E> = Ok(value: T) | Err(error: E)
}
