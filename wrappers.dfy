/** Option and Result values, and the Python exceptions the modelled code can raise. */
module Wrappers {

  datatype Option<+T> = None | Some(value: T) {
    /** Python's `d.get(k, default)` once the lookup itself is done. */
    function GetOr(default: T): T {
      match this
      case Some(v) => v
      case None => default
    }
  }

  datatype Result<+T, +E> = Ok(value: T) | Err(error: E)

  /** The exceptions raised by the modelled code when an input lacks a key or an index. */
  datatype Failure =
    | KeyError(key: string)          // `d[key]` on a dict without that key
    | NoneSubscripted(key: string)   // `None[key]`: a TypeError in Python
    | IndexError                     // a list index outside the list
}
