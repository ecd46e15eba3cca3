/**
 A value that a Python dictionary may or may not hold under some key.
 */
module Optional {

  datatype Option<T> = None | Some(value: T) {

    /** What `dict.get(key, fallback)` returns: the held value, else `fallback`. */
    function ValueOr(fallback: T): T {
      if Some? then value else fallback
    }
  }
}
