/** Option and Result, the two failure-carrying shapes the Rust code uses, and `std::io::Error`. */
module Wrappers {

  datatype Option<+T> = None | Some(value: T) {
    function GetOr(default: T): T {
      match this
      case Some(v) => v
      case None => default
    }
  }

  datatype Result<+R, +E> = Ok(value: R) | Err(error: E)

  /** A failed read of an underlying stream. */
  datatype IoError = IoError(message: string)
}
