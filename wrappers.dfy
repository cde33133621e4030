/** Optional values: `None` stands for a missing value or for an operation that threw. */
module Wrappers {
  datatype Option<+T> = None | Some(value: T)
}
