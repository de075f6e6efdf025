/** The optional value that stands for Java's `Optional` and for the nullable
    fields of a search request. */
module Wrappers {
  datatype Option<+T> = None | Some(value: T)
}
