/** Failure-carrying wrappers shared by the model: `Option` stands for a value
    that JavaScript would leave `undefined`, `Result` for a computation that can
    throw. */
module Wrappers {

  datatype Option<+T> = None | Some(value: T)

  datatype Result<+R, +E> = Success(value: R) | Failure(error: E)
}
