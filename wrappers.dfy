// An optional value, for the results of operations that can fail.

module Wrappers {

  datatype Option<T> = None | Some(value: T)
}
