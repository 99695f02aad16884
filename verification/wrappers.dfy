/** Optional values shared by the light and flora models. */
module Wrappers {

  /** A value that may be absent (JavaScript's `undefined`, `null` or another falsy value). */
  datatype Option<+T> = None | Some(value: T)
}
