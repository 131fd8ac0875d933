/** Option and Result values, used where the application has an optional
    field, a missing value or a validation failure. */
module Wrappers {

  datatype Option<+T> = None | Some(value: T)

  datatype Result<+R, +E> = Success(value: R) | Failure(error: E)
}
