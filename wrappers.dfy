/** Optional values, used for the argument a caller may leave out. */
module Wrappers {

  datatype Option<+T> = None | Some(value: T)
}
