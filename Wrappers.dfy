/** The optional value used throughout the model: a JavaScript value that may be
    `null`/`undefined` is `None`, a present one is `Some`. */
module Wrappers {

  datatype Option<+T> = None | Some(value: T)
}
