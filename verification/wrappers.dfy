/** Failure-compatible wrappers shared by every module of the model.

    Ruby signals trouble by raising; the model turns every raise the
    modelled code can reach into an explicit `Failure` carrying an `Error`
    that says which kind of exception Ruby would have raised. */
module Wrappers {

  /** Ruby's `nil` or a present value. */
  datatype Option<+T> = None | Some(value: T) {

    predicate IsFailure() {
      None?
    }

    function PropagateFailure<U>(): Option<U>
      requires None?
    {
      None
    }

    function Extract(): T
      requires Some?
    {
      value
    }

    /** `x || default` on a value that can only be nil or present. */
    function GetOr(default: T): T {
      match this
      case Some(v) => v
      case None => default
    }
  }

  /** The exceptions the modelled Ruby code can raise. */
  datatype Error =
    | NoMethodOnNil(name: string)     // NoMethodError: a method called on nil
    | RuntimeError(message: string)   // `raise "..."`
    | ArgumentError(message: string)  // `raise ArgumentError, "..."`
    | TypeError(message: string)      // an operand of the wrong class

  datatype Result<+T> = Success(value: T) | Failure(error: Error) {

    predicate IsFailure() {
      Failure?
    }

    function PropagateFailure<U>(): Result<U>
      requires Failure?
    {
      Failure(error)
    }

    function Extract(): T
      requires Success?
    {
      value
    }
  }
}
