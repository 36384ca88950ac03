/** Failure-carrying values used in place of the C++ exceptions of the extension. */
module Wrappers {

  /** The only exception type the core throws: std::runtime_error with its message. */
  datatype Error = RuntimeError(what: string)

  /** A value or the exception that was thrown instead of producing it. */
  datatype Result<+T> = Ok(value: T) | Err(error: Error) {
    predicate IsFailure() { Err? }

    function PropagateFailure<U>(): Result<U>
      requires Err?
    {
      Err(error)
    }

    function Extract(): T
      requires Ok?
    {
      value
    }
  }

  datatype Option<+T> = None | Some(value: T) {
    predicate IsFailure() { None? }

    function PropagateFailure<U>(): Option<U>
      requires None?
    {
      None
    }

    function Extract(): T
      requires Some?
    {
      value
    }
  }
}
