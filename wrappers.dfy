/** Small helper datatypes shared by the modules of the model. */
module Wrappers {

  /** A value that may be absent: Java's `null` return of `Map.get`, or a search with no goal. */
  datatype Option<+T> = None | Some(value: T)
}
