/** The usual optional value: Python's `None` or a result. */
module Wrappers {
  datatype Option<+T> = None | Some(value: T)
}
