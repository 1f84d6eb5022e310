/** Option and Result, for the null returns and failed validations of the modelled code. */
module Wrappers {

  /** A value that may be absent: the model of a .NET reference that may be null. */
  datatype Option<+T> = None | Some(value: T)

  /** Either a value or the reason it could not be produced. */
  datatype Result<+T, +E> = Success(value: T) | Failure(error: E)
}
