/** Optional values and results with an error, standing for Python's `None`
    and for exceptions that a caller observes. */
module Wrappers {

  datatype Option<T> = None | Some(value: T)

  datatype Result<T, E> = Ok(value: T) | Err(error: E)
}
