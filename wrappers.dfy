/** Failure-compatible wrappers shared by the model: an optional value (Python's
    `Optional[...]`/`None`) and a result that is either a value or an error. */
module Wrappers {

  datatype Option<+T> = None | Some(value: T)

  datatype Result<+T, +E> = Success(value: T) | Failure(error: E)
}
