/** Optional values: a present value or nothing (Go's nil, or the `ok == false` of a lookup). */
module Wrappers {

  datatype Option<+T> = None | Some(value: T)
}
