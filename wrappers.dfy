/** A value that may be absent: the model of TypeScript's `T | null` and of optional fields. */
module Wrappers {
  datatype Option<T> = None | Some(value: T)
}
