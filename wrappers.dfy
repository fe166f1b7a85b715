/** Failure-carrying return types used for the C++ exceptions and optionals of the model. */
module Wrappers {

  /** std::optional: `None` is an empty optional. */
  datatype Option<+T> = None | Some(value: T) {
    /** optional::value_or */
    function GetOr(default: T): T {
      match this
      case Some(v) => v
      case None => default
    }
  }

  /** A value, or the exception that was thrown instead. */
  datatype Result<+T, +E> = Ok(value: T) | Err(error: E)

  /** A void operation that either returns normally or throws. */
  datatype Outcome<+E> = Pass | Fail(error: E)
}
