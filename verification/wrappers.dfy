/** Option and Result values standing in for Swift optionals and for
    functions that either return a value or throw. */
module Wrappers {

  /** A Swift optional: `nil` is `None`. */
  datatype Option<+T> = None | Some(value: T) {

    /** The `??` operator: the wrapped value, or `default` when nil. */
    function GetOr(default: T): T {
      match this
      case Some(v) => v
      case None => default
    }
  }

  /** The outcome of a throwing call: a value, or the error that was thrown. */
  datatype Result<+T, +E> = Success(value: T) | Failure(error: E) {

    /** With `PropagateFailure` and `Extract`, lets `var x :- call; ...`
        stand for Swift's `let x = try call`. */
    predicate IsFailure() {
      Failure?
    }

    function PropagateFailure<U>(): Result<U, E>
      requires Failure?
    {
      Failure(error)
    }

    function Extract(): T
      requires Success?
    {
      value
    }

    /** `try?`: the value, or nil when the call threw. */
    function ToOption(): Option<T> {
      match this
      case Success(v) => Some(v)
      case Failure(_) => None
    }
  }
}
