/** The optional value used wherever Go has a nil pointer, a missing map entry or a comma-ok result. */
module Wrappers {
  datatype Option<+T> = None | Some(value: T)
}
