/** A Java reference that may be null, as a value. */
module Wrappers {
  datatype Option<T> = None | Some(value: T)
  {
    /** The held value, or `default` for a null reference. */
    function GetOr(default: T): T
    {
      if Some? then value else default
    }
  }
}
