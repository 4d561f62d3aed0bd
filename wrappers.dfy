/** Failure-carrying results, used wherever the Python code raises an exception
    or the library returns an empty value. */
module Wrappers {

  datatype Option<+T> = None | Some(value: T)

  datatype Result<+R, +E> = Ok(value: R) | Err(error: E)
}
