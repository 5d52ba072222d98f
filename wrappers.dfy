/** Option and Result values: the model's stand-ins for Python's `None`-or-value
    and for an exception that aborts a call. */
module Wrappers {

  datatype Option<+T> = None | Some(value: T)

  datatype Result<+T, +E> = Success(value: T) | Failure(error: E)
}
