/** Optional values, used for absent ids, absent timestamps and "no error". */
module Wrappers {
  datatype Option<+T> = None | Some(value: T)
}
