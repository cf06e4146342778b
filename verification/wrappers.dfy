/** The optional value used for the bot's "read back" functions. */
module Wrappers {
  datatype Option<+T> = None | Some(value: T)
}
