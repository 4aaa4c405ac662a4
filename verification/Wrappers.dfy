/** A value that may be absent: the source's `undefined` and `null`. */
module Wrappers {
  datatype Option<T> = None | Some(value: T)
}
