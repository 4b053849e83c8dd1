/** Optional values, used for Go's nil-or-error results. */
module Wrappers {

  datatype Option<+T> = None | Some(value: T)
}
