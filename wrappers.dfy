/** Optional values, used for the places where the application either produces a
    value or raises (a date out of range, an unparsable field). */
module Wrappers {

  datatype Option<+T> = None | Some(value: T)

}
