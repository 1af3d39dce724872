/** The optional value the application uses for "no current word". */
module Wrappers {

  datatype Option<+T> = None | Some(value: T)
}
