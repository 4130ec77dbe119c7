/** Option and Result, the two failure-compatible wrappers the model uses in
    place of Ruby's nil and raised exceptions. */
module Wrappers {

  datatype Option<+T> = None | Some(value: T) {
    predicate IsFailure() { None? }

    function PropagateFailure<U>(): Option<U>
      requires None?
    {
      None
    }

    function Extract(): T
      requires Some?
    {
      value
    }
  }

  datatype Result<+R, +E> = Success(value: R) | Failure(error: E) {
    predicate IsFailure() { Failure? }

    function PropagateFailure<U>(): Result<U, E>
      requires Failure?
    {
      Failure(error)
    }

    function Extract(): R
      requires Success?
    {
      value
    }
  }

  /** The exceptions of the XML-RPC layer. `ValueError` and `RequestError` are the
      library's own classes; `OtherError` stands for any other Ruby exception
      (NoMethodError, ArgumentError, NameError, ...), carrying its message. */
  datatype Error =
    | ValueError(message: string)
    | RequestError(message: string)
    | OtherError(message: string)
}
