/** Option and Result values used for the "no candidate" and "cannot proceed" outcomes of the engine. */
module Wrappers {
  datatype Option<T> = None | Some(value: T)

  datatype Result<T> = Success(value: T) | Failure(error: string)
}
