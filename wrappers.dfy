/** A value that may be absent: Python's `None` or a missing entry. */
module Wrappers {

  datatype Option<T> = None | Some(value: T)

  /** `d.get(key, default)` and `os.getenv(name, default)`. */
  function GetOr<T>(o: Option<T>, default: T): T {
    match o
    case Some(v) => v
    case None => default
  }
}
