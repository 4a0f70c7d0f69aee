/** The optional value used where the game keeps `null` for "nothing yet". */
module Wrappers {
  datatype Option<+T> = None | Some(value: T)
}
