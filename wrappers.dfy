/** Optional values, standing in for JavaScript's `null` or a missing row. */
module Wrappers {

  datatype Option<+T> = None | Some(value: T)
}
