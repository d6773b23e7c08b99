/** Outcome types shared by the modules: what the source returns as `value, ok` or `value, error`. */
module Wrappers {
  datatype Option<+T> = None | Some(value: T)

  datatype Result<+T, +E> = Success(value: T) | Failure(error: E)
}
