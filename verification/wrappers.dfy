/** Optional values, for the operations of the source that may find nothing. */
module Wrappers {
  datatype Option<+T> = None | Some(value: T)
}
