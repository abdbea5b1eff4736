/** Optional values, for fields the source may find absent. */
module Wrappers {
  datatype Option<T> = None | Some(value: T)
}
