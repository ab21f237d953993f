/** Values that may be absent, and results that may be an error. */
module Options {

  /** `null`, `undefined` or a value of the wrong type on one side, the value on the other. */
  datatype Option<+T> = None | Some(value: T)

  datatype Result<+T, +E> = Ok(value: T) | Err(error: E)
}
