/** Option, the usual stand-in for Python's `None` and for a call that raised. */
module Wrappers {
  datatype Option<+T> = None | Some(value: T)
}
