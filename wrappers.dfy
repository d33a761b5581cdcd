/** Optional values, for lookups that may find nothing and fields that may be null. */
module Wrappers {
  datatype Option<+T> = None | Some(value: T)
}
