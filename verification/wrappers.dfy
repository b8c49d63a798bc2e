/** The Some/None datatype used wherever the hub receives a reference that may be null. */
module Wrappers {

  /** `None` stands for a C# `null` (or an omitted optional argument). */
  datatype Option<+T> = None | Some(value: T) {

    /** The wrapped value, or `default` when there is none. */
    function GetOr(default: T): T {
      match this
      case Some(v) => v
      case None => default
    }
  }
}
