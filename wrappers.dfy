/** Optional values, the model's stand-in for Python's `None`-or-value. */
module Wrappers {

  datatype Option<+T> = None | Some(value: T)

  /** A Python value that is either a `str` or `None` (an XML element's `.text`). */
  datatype PyStr = PyNone | Str(s: string)
}
