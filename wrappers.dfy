/** Option, the value-or-absence type used for lookups and parses. */
module Wrappers {
  datatype Option<+T> = None | Some(value: T)
}
