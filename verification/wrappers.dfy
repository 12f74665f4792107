/** Optional values: a missing attribute, a regular expression that did not match. */
module Wrappers {
  datatype Option<+T> = None | Some(value: T)
}
