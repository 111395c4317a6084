/** The one wrapper type the other modules share: Go's "absent" values (a nil reference, the
    empty cursor, a missing map entry). */
module Wrappers {
  datatype Option<+T> = None | Some(value: T)
}
