/** Nullable references of the source are modelled as an optional value. */
module Wrappers {

  datatype Option<+T> = None | Some(value: T)
}
