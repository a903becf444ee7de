/** Optional values: the model's null pointers, std::optional results and size_t(-1) sentinels. */
module Wrappers {
  datatype Option<+T> = None | Some(value: T)
}
