/** Option and Result, used for absent request fields and for the error replies of the booking endpoints. */
module Wrappers {

  datatype Option<+T> = None | Some(value: T)

  datatype Result<+R, +E> = Success(value: R) | Failure(error: E)
}
