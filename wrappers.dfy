/** Optional values: a Java reference that may be null, an `Optional` result. */
module Wrappers {
  datatype Option<+T> = None | Some(value: T)
}
