/** The optional value used throughout the model: a stored slot that may be
    empty, a form field that may not hold a finite number, a lookup that may
    find nothing. */
module Wrappers {

  datatype Option<+T> = None | Some(value: T)
}
