/** The exceptions the modelled code raises, and a failure-compatible result
    type so that operations which raise in Python return `Err` here. */
module Errors {

  /** The Python exception classes the modelled code raises. */
  datatype Error =
    | AssertionError
    | ValueError
    | TypeError
    | KeyError
    | IndexError
    | NotImplementedError

  /** Either the value a Python call returns or the exception it raises. */
  datatype Result<+T> = Ok(value: T) | Err(error: Error) {

    predicate IsFailure() {
      Err?
    }

    function PropagateFailure<U>(): Result<U>
      requires Err?
    {
      Err(error)
    }

    function Extract(): T
      requires Ok?
    {
      value
    }
  }

  /** An optional value, for Python's `None` defaults. */
  datatype Option<+T> = None | Some(value: T)
}
