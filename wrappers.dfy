/** The optional value used wherever the source has `null`, `undefined`
    or a promise that rejects. */
module Wrappers {

  datatype Option<+T> = None | Some(value: T)
}
