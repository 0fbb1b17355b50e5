// Option and Result, the two Rust enums every module of the model uses.
module Wrappers {

  datatype Option<T> = None | Some(value: T)
  {
    /** `Option::unwrap_or`. */
    function UnwrapOr(default: T): T
    {
      match this
      case None => default
      case Some(v) => v
    }
  }

  datatype Result<T, E> = Ok(value: T) | Err(error: E)
}
