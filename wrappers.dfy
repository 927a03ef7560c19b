/** Optional values: a read that produced nothing, a pattern that did not match. */
module Wrappers {
  datatype Option<+T> = None | Some(value: T)
}
