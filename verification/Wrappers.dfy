/** Optional values, used for absent results and for times that are not set. */
module Wrappers {
  datatype Option<+T> = None | Some(value: T)
}
