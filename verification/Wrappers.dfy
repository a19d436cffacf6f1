/** The option type used for pointers that may be NULL and for look-ups that may fail. */
module Wrappers {
  datatype Option<+T> = None | Some(value: T)
}
