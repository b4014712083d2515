/** Failure-compatible wrappers shared by the model: an optional value (the
    model of a C# reference that may be null) and a success-or-error result
    (the model of an operation that may throw). */
module Wrappers {

  datatype Option<+T> = None | Some(value: T)

  datatype Result<+R, +E> = Success(value: R) | Failure(error: E)
}
