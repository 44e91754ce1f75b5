/** Option and Result values shared by every module of the model. */
module Wrappers {

  /** An optional value (`Option` in Rust, `undefined`-or-value in TypeScript). */
  datatype Option<T> = None | Some(value: T) {
    function GetOr(default: T): T {
      if Some? then value else default
    }
  }

  /** The outcome of an operation that can fail with an error message. */
  datatype Result<T> = Ok(value: T) | Err(error: string)
}
