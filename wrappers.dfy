/** The optional value used throughout the model: JavaScript's `null` and
    `undefined`, and a `find` that finds nothing, all become `None`. */
module Wrappers {

  datatype Option<+T> = None | Some(value: T)
}
