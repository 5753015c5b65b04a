/** Optional values; `None` plays the role of a null pointer. */
module Wrappers {

  /** A value that may be absent. */
  datatype Option<+T> = None | Some(value: T)
}
