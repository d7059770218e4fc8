/** Optional values: a read that may fail. */
module Wrappers {

  /** `None` is a failed read of the input stream; `Some(v)` is the number read. */
  datatype Option<+T> = None | Some(value: T)
}
