/** Failure-carrying values: Option for Python's optional arguments and for a
    call that may raise, Result for an operation that reports an error. */
module Outcomes {
  datatype Option<+T> = None | Some(value: T) {
    function GetOr(default: T): T {
      if Some? then value else default
    }
  }

  datatype Result<+R, +E> = Success(value: R) | Failure(error: E)
}
