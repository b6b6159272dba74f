/** Optional values: the model's stand-in for the source's nullable `object? Value`. */
module Wrappers {
  datatype Option<+T> = None | Some(value: T)
}
