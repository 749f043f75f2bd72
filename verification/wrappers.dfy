/** Optional values, used by the UTF-8 decoder and by the first-match
    classification table. */
module Wrappers {

  datatype Option<+T> = None | Some(value: T)

}
