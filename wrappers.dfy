/** Optional values and error returns, standing in for Go's nil pointers and
    `(value, error)` result pairs. */
module Wrappers {

  datatype Option<+T> = None | Some(value: T)

  datatype Result<+T, +E> = Ok(value: T) | Err(error: E)
}
