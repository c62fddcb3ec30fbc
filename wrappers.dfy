/** Optional values, used wherever the source has a nullable value or a "not found" result. */
module Wrappers {

  datatype Option<+T> = None | Some(value: T)
}
