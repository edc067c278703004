/** Optional values, used for the edit cursor, which is either null or a task id. */
module Wrappers {

  datatype Option<+T> = None | Some(value: T)
}
