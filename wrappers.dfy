/** An optional value: the source's `null` / empty input. */
module Wrappers {
  datatype Option<T> = None | Some(value: T)
}
