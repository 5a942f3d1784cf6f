/** Optional values, used wherever the source has `undefined` or a `-1` index. */
module Wrappers {

  datatype Option<+T> = None | Some(value: T)
}
