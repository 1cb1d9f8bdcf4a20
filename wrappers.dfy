/** Optional values, used where the source has `None` or an empty value. */
module Wrappers {
  datatype Option<+T> = None | Some(value: T)
}
