/** The optional value that stands for `T | null` and `T | undefined` throughout. */
module Wrappers {
  datatype Option<+T> = None | Some(value: T) {
    function GetOr(default: T): T {
      match this
      case Some(v) => v
      case None => default
    }
  }

  /** The list of at most one element. */
  function Listed<T>(o: Option<T>): seq<T> {
    if o.Some? then [o.value] else []
  }
}
