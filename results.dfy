/** The two shapes the application uses for "absent" and "failed". */
module Results {

  /** A value that may be missing: `undefined` or `null` in the application. */
  datatype Option<+T> = None | Some(value: T) {
    function GetOr(default: T): T {
      if Some? then value else default
    }
  }

  /** The outcome of a step that either produces a value or stops with an error message. */
  datatype Result<+T> = Ok(value: T) | Err(error: string)
}
