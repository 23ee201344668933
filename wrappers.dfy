/** A value that may be absent; used for optional results and output events. */
module Wrappers {
  datatype Option<T> = None | Some(value: T)
}
