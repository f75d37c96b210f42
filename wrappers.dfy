/** Option and Result values for lookups that may miss and operations that may fail. */
module Wrappers {

  datatype Option<+T> = None | Some(value: T) {
    /** The value if there is one, otherwise `default`. */
    function Or(default: T): (r: T)
      ensures None? ==> r == default
      ensures Some? ==> r == value
    {
      if Some? then value else default
    }
  }

  datatype Result<+T, +E> = Ok(value: T) | Err(error: E)
}
