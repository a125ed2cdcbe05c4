/** Optional values: the model's stand-in for `undefined`, `null` and a failed I/O step. */
module Wrappers {

  datatype Option<+T> = None | Some(value: T) {

    /** The wrapped value, or a default when there is none. */
    function GetOr(default: T): T {
      match this
      case Some(v) => v
      case None => default
    }
  }
}
