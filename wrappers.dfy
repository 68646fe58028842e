/** The optional value the game uses for a nullable reference or an absent file. */
module Wrappers {
  datatype Option<+T> = None | Some(value: T)
}
