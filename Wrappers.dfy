/** Optional values, standing for JavaScript's `null` and for a call that throws. */
module Wrappers {
  datatype Option<+T> = None | Some(value: T)
}
