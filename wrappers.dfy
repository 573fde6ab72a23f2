/** The optional value used for every loosely-typed field of an overlay
    payload: `None` stands for a JavaScript `undefined` (the key is absent). */
module Wrappers {
  datatype Option<+T> = None | Some(value: T)
}
