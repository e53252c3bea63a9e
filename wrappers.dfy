/** Failure-carrying values used across the model, and the Python exceptions
    the modelled code can raise. */
module Wrappers {

  datatype Option<+T> = None | Some(value: T)

  /** The outcome of a Python call: a value, or the exception it raised. */
  datatype Result<+T> = Success(value: T) | Failure(error: Exception) {
    predicate IsFailure() {
      Failure?
    }

    function PropagateFailure<U>(): Result<U>
      requires Failure?
    {
      Failure(error)
    }

    function Extract(): T
      requires Success?
    {
      value
    }
  }

  /** The built-in Python exceptions raised by the modelled code. */
  datatype Exception =
    | ValueError(message: string)
    | IndexError
    | KeyError(key: string)
    | TypeError
}
