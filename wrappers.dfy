// Result and option values for operations that can fail.
module Wrappers {

  datatype Option<T> = None | Some(value: T)

  /** A thrown ProtocolException carries its message. */
  datatype Error = ProtocolException(message: string)

  datatype Result<T> = Success(value: T) | Failure(error: Error)
  {
    predicate IsFailure() { Failure? }
  }
}
