/** Option and Result values, standing for Rust's `Option`/`Result` and for the
    `T | null` values of the TypeScript stores. */
module Wrappers {

  datatype Option<+T> = None | Some(value: T) {
    /** Rust's `unwrap_or` / TypeScript's `??`. */
    function GetOr(default: T): T {
      match this
      case Some(v) => v
      case None => default
    }
  }

  datatype Result<+R, +E> = Ok(value: R) | Err(error: E)

  /** The unit value carried by `Ok(())`. */
  datatype Unit = Unit
}
