/** The optional value used where the game code returns or stores `null`/`undefined`. */
module Wrappers {

  datatype Option<+T> = None | Some(value: T)
}
