/** Small result types used throughout. */
module Wrappers {
  datatype Option<+T> = None | Some(value: T)
  {
    function GetOr(default: T): T
    {
      if Some? then value else default
    }
  }

  /** A computation that may raise an exception. */
  datatype Result<+T> = Ok(value: T) | Raise
}
