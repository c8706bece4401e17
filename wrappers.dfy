/** Optional values: a lookup that may miss, an operation that may throw. */
module Wrappers {

  datatype Option<+T> = None | Some(value: T)
}
