/** An optional value; `None` plays JavaScript's `undefined` for absent properties. */
module Wrappers {
  datatype Option<+T> = None | Some(value: T)
}
