/** Optional values and results with an error, used where the Go code returns
    a nil pointer or a (value, error) pair. */
module Wrappers {

  datatype Option<+T> = None | Some(value: T)

  datatype Result<+T, +E> = Ok(value: T) | Err(error: E)
}
