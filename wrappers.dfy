/** Optional values, used for the optional arguments of the source's entry points. */
module Wrappers {
  datatype Option<T> = None | Some(value: T)
}
