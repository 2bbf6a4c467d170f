/** A value that may be missing: JavaScript's `null` or a failed read. */
module Wrappers {
  datatype Option<T> = None | Some(value: T)
}
