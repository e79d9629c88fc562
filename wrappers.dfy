/** Option and Result values used for JavaScript's "absent" values and thrown errors. */
module Wrappers {

  /** An optional value: `None` stands for JavaScript's `null` / `undefined`. */
  datatype Option<+T> = None | Some(value: T) {
    function GetOr(default: T): T {
      match this
      case Some(v) => v
      case None => default
    }
  }

  /** The outcome of a step that may throw: `Failure` carries what was thrown. */
  datatype Result<+R, +E> = Success(value: R) | Failure(error: E)
}
