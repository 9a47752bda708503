/** Optional values, standing for Python's `None` and the exceptions a call may raise. */
module Wrappers {

  /** A value that may be absent (`None` in Python). */
  datatype Option<+T> = None | Some(value: T)

  /** An operating-system error as it surfaces to the caller: `str(exc)` is its message. */
  datatype OsError = OsError(message: string)

  /** How a Python call ends: it returns a value, or an exception escapes from it. */
  datatype Outcome<+T> = Returned(value: T) | Raised(error: OsError)
}
