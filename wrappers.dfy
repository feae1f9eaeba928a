/** Optional values: the weight column of an edge table is either present or absent. */
module Wrappers {

  datatype Option<+T> = None | Some(value: T)
}
