/** Option and Result datatypes used throughout the model. */
module Wrappers {

  datatype Option<+T> = None | Some(value: T)

  /** Either a value or an error; used for the accessors of the settings tree and for the markup loader. */
  datatype Result<+R, +E> = Success(value: R) | Failure(error: E)
}
