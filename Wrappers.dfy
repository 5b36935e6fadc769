/** Optional values, for lookups that can miss. */
module Wrappers {

  datatype Option<T> = None | Some(value: T)
}
