/** Optional values: Go's nil pointers, nil maps and absent cookies. */
module Wrappers {

  datatype Option<+T> = None | Some(value: T)
}
