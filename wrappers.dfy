/** A value that may be absent: stands for a nullable handle or pointer. */
module Wrappers {

  datatype Option<T> = None | Some(value: T)
}
