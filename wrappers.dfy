/** The optional value used wherever the JavaScript code has a value or `undefined`/`null`. */
module Wrappers {

  datatype Option<+T> = None | Some(value: T)
}
