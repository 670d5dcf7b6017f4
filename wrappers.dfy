/** The optional value used wherever the program works with a value that may be
    `undefined` (a missing JSON field, a missing `message` on a thrown value, an
    array index past the end). */
module Wrappers {

  datatype Option<+T> = None | Some(value: T)
}
