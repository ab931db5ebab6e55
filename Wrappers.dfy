/** Optional values, used for the lookups that can fail and for label parsing. */
module Wrappers {
  datatype Option<+T> = None | Some(value: T)
}
