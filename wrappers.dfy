/** Optional values, results and the Python exception kinds the core raises. */
module Wrappers {

  datatype Option<+T> = None | Some(value: T)

  /** The exception classes raised by the modelled code; `what` names the
      offending key, name or expression. */
  datatype Error =
    | KeyError(what: string)
    | ValueError(what: string)
    | NameError(what: string)
    | TypeError(what: string)
    | IndexError(what: string)

  datatype Result<+R> = Success(value: R) | Failure(error: Error)

  /** Completion of an operation that returns nothing of interest (or `0`). */
  datatype Outcome = Pass | Fail(error: Error)
}
