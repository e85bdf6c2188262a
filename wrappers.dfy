/** Option and Result values, used in place of Python's None and of the
    dictionaries with an "error" key that the roster code returns. */
module Wrappers {

  datatype Option<+T> = None | Some(value: T)

  datatype Result<+R, +E> = Success(value: R) | Failure(error: E)
}
