/** Option and Result, used for the optional answers of the container runtime
    and for the HTTP error paths of the session manager. */
module Wrappers {

  datatype Option<+T> = None | Some(value: T)

  datatype Result<+R, +E> = Success(value: R) | Failure(error: E)
}
