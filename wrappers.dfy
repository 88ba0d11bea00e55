/** The optional value shared by the storage layer and the cache facade. */
module Wrappers {

  datatype Option<+T> = None | Some(value: T)
}
