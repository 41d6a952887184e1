/** The optional value used for board squares and for the bot's choice. */
module Wrappers {

  datatype Option<+T> = None | Some(value: T)
}
