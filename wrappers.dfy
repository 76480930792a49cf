/** The optional value used for nullable attributes (a link's title, an unsaved record's id). */
module Wrappers {

  datatype Option<+T> = None | Some(value: T)
}
