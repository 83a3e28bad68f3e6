/** Option stands for JavaScript's `undefined` / `null` results of the source. */
module Wrappers {

  datatype Option<+T> = None | Some(value: T)
}
