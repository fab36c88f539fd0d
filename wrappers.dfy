/** Small helper datatypes shared by the other modules. */
module Wrappers {

  /** A value that may be absent: an SQL NULL, a missing request field. */
  datatype Option<T> = None | Some(value: T)
}
