/** Option and error results shared by the engine's operations. */
module Outcomes {

  datatype Option<+T> = None | Some(value: T) {
    /** The carried value, or `default` when absent (JavaScript's `x || default`
        for a value that is never falsy when present). */
    function GetOr(default: T): T {
      match this
      case Some(v) => v
      case None => default
    }
  }

  /** The errors the engine raises itself. */
  datatype Error =
    | TypeError                     // a dependency without a generation function
    | LockedError                   // `partial` called outside a generate call
    | UnknownPartial(name: string)  // `partial` called with an unregistered name

  datatype Result<+T> = Ok(value: T) | Err(error: Error)

  datatype Outcome = Pass | Fail(error: Error)
}
