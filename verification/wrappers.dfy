/** The optional value shared by every module: a null pointer, a missed trace, an absent component. */
module Wrappers {
  datatype Option<T> = None | Some(value: T)
}
