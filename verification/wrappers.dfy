/** The optional value every page model uses for "element or state may be
    missing". */
module Wrappers {

  datatype Option<+T> = None | Some(value: T)
}
