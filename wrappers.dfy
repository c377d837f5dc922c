/** An Option type for values the board code may leave unset or undefined. */
module Wrappers {
  datatype Option<+T> = None | Some(value: T)
}
