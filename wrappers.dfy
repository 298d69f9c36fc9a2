/** The optional value used for absent request fields and for queries that match no row. */
module Wrappers {

  datatype Option<+T> = None | Some(value: T)
}
