/** Optional values: a JavaScript value that may be `undefined`. */
module Wrappers {

  datatype Option<+T> = None | Some(value: T) {

    /** `v || default`: the value when present, the default otherwise. */
    function GetOr(default: T): T
    {
      match this
      case Some(v) => v
      case None => default
    }
  }
}
