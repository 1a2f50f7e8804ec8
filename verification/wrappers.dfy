/**
 * Optional values and error-carrying results. Option stands for Ruby's `nil`
 * return; Result stands for a method that either returns or raises.
 */
module Wrappers {

  datatype Option<+T> = None | Some(value: T) {

    /** The carried value; `default` stands in for `nil`. */
    function GetOr(default: T): T {
      match this
      case Some(v) => v
      case None => default
    }
  }

  /** Either the computed value or the error raised instead; usable with `:-`. */
  datatype Result<+R, +E> = Success(value: R) | Failure(error: E) {

    predicate IsFailure() {
      Failure?
    }

    function PropagateFailure<U>(): Result<U, E>
      requires Failure?
    {
      Failure(error)
    }

    function Extract(): R
      requires Success?
    {
      value
    }
  }
}
