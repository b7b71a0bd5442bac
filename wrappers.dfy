/** Optional values, for results the C code reports through a flag or leaves unset. */
module Wrappers {
  datatype Option<+T> = None | Some(value: T)
}
