/** The optional value used wherever the source has `null`, `undefined` or `NaN`. */
module Wrappers {

  datatype Option<T> = None | Some(value: T) {

    /** `x || default` for a value that is either present or missing. */
    function GetOr(default: T): T {
      if Some? then value else default
    }
  }
}
