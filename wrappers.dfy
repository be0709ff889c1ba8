/** An optional value, for lookups that may find nothing and forms that may
    be opened without a post. */
module Wrappers {
  datatype Option<T> = None | Some(value: T)
}
