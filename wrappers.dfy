/** The optional value used uniformly for Python's None / NaN / pd.NA. */
module Wrappers {

  datatype Option<+T> = None | Some(value: T) {

    /** The value, or a default when missing. */
    function GetOr(default: T): T {
      match this
      case Some(v) => v
      case None => default
    }
  }
}
