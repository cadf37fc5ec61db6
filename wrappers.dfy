/** Option and Result types shared by the MBTR and SOAP models. */
module Wrappers {

  datatype Option<+T> = None | Some(value: T)

  /** A value, or the error the modelled code raises or throws instead. */
  datatype Result<+R, +E> = Success(value: R) | Failure(error: E) {
    predicate IsFailure() { Failure? }

    function PropagateFailure<U>(): Result<U, E>
      requires Failure?
    {
      Failure(error)
    }

    function Extract(): R
      requires Success?
    {
      value
    }
  }
}
