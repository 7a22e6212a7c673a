/** The optional value used for Python's `None` and for an exception raised by a read. */
module Wrappers {
  datatype Option<T> = None | Some(value: T)
}
