/** Optional values: a task slot that may be empty (a null task<void()>). */
module Wrappers {
  datatype Option<+T> = None | Some(value: T)
}
