/** Small value wrappers shared by the other modules. */
module Wrappers {

  /** A value that may be absent: Python's `None` versus a present value. */
  datatype Option<+T> = None | Some(value: T)

  /** The ways a Python call in the modelled code can end without returning. */
  datatype Stop =
    | Exit(code: int)              // `exit()` (status 0) or `exit(1)`
    | Raised(error: PyError)       // an exception nobody catches

  /**
   * Exception classes that the modelled code can raise and not catch;
   * `RuntimeError` is what `arcpy` raises for a field it cannot find.
   */
  datatype PyError = ValueError | TypeError | KeyError | NameError | RuntimeError

  /** A computation that either yields a value or stops. */
  datatype Result<+T> = Ok(value: T) | Fail(stop: Stop)
}
