/** Optional values, for nullable database columns and fallible collaborators. */
module Wrappers {
  datatype Option<+T> = None | Some(value: T)
}
