/** Failure-carrying datatypes shared by the model: an optional value and a
    value-or-error result, standing in for Go's `(value, error)` pairs and nil
    pointers. */
module Wrappers {

  datatype Option<+T> = None | Some(value: T) {

    /** The value, or `default` when there is none. */
    function GetOr(default: T): T {
      match this
      case Some(v) => v
      case None => default
    }
  }

  datatype Result<+R, +E> = Success(value: R) | Failure(error: E)
}
