/** Optional values: the model of std::optional. */
module Wrappers {
  datatype Option<+T> = None | Some(value: T)
}
