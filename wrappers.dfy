/** Optional values, used where the source uses a null pointer or a "not found" outcome. */
module Wrappers {

  datatype Option<+T> = None | Some(value: T)
}
