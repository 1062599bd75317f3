/** Small shared definitions. */
module Base {

  /** A value that may be absent (Rust's `Option`). */
  datatype Option<T> = None | Some(value: T)
  {
    /** `unwrap_or` / `unwrap_or_default`: the value, or `default` when absent. */
    function GetOr(default: T): T
    {
      match this
      case Some(v) => v
      case None => default
    }
  }
}
