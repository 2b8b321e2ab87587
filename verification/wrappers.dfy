/** Failure-compatible wrapper used throughout the model: Python's `None` /
    "missing key" and the absent optional fields of a log record. */
module Wrappers {

  datatype Option<+T> = None | Some(value: T) {

    /** The encapsulated value, or `default` when there is none (Python's
        `d.get(key, default)` and `x or default` idioms). */
    function GetOr(default: T): T
    {
      match this
      case Some(v) => v
      case None => default
    }
  }
}
