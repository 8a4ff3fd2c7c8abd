/** Optional values: Java's `null` where a reference may be absent. */
module Wrappers {

  datatype Option<+T> = None | Some(value: T)
}
