/** Option for values JavaScript leaves `undefined`, and Result for operations that can
    throw a `TypeError` (reading a property of `null`/`undefined`, calling a missing method). */
module Wrappers {

  datatype Option<+T> = None | Some(value: T) {
    function GetOr(default: T): T {
      match this
      case Some(v) => v
      case None => default
    }
  }

  /** The only exception the pipeline can raise is a JavaScript `TypeError`. */
  datatype Result<+T> = Ok(value: T) | TypeError
}
