/** Small datatypes shared by the models: optional values and the outcome of
    an operation that the program ends by raising an exception. */
module Common {

  datatype Option<+T> = None | Some(value: T)

  datatype Result<+T, +E> = Ok(value: T) | Err(error: E)
}
