/** Option and Result, used for a regex match that may be missing and for
    the errors pandas raises (a missing column, a length mismatch). */
module Wrappers {

  datatype Option<+T> = None | Some(value: T)

  datatype Result<+T, +E> = Ok(value: T) | Err(error: E)

  /** What a state-changing method reports: it went through, or it raised. */
  datatype Outcome<+E> = Pass | Fail(error: E)

  function ToOutcome<T, E>(r: Result<T, E>): Outcome<E>
  {
    match r
    case Ok(_) => Pass
    case Err(e) => Fail(e)
  }
}
