/** The optional value used throughout the model: JavaScript's `null` /
    `undefined` on one side and a present value on the other. */
module Options {

  datatype Option<+T> = None | Some(value: T)

  /** A value that is either a success or an error carrying a reason. */
  datatype Result<+R, +E> = Ok(value: R) | Err(error: E)
}
