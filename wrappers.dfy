/** Swift's optionals and thrown errors, as values. */
module Wrappers {

  /** `T?` in Swift: `nil` or a value. */
  datatype Option<+T> = None | Some(value: T) {

    /** `self ?? default` */
    function GetOr(default: T): T {
      match this
      case Some(v) => v
      case None => default
    }
  }

  /** The outcome of a throwing call: the returned value or the error thrown. */
  datatype Result<+R, +E> = Success(value: R) | Failure(error: E)
}
