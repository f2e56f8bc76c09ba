/** Optional values: the model's reading of Kotlin's nullable types. */
module Wrappers {
  datatype Option<T> = None | Some(value: T)
}
