/** Optional values, used for register reads that may have no data and for
    restore data that may be absent. */
module Wrappers {

  datatype Option<+T> = None | Some(value: T)
}
