/** Optional values: the model's stand-in for null pointers and failed parses. */
module Wrappers {
  datatype Option<+T> = None | Some(value: T)
}
