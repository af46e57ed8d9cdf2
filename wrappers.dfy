/** An optional value: the model of JavaScript's `null` result of a lookup or decode. */
module Wrappers {

  datatype Option<+T> = None | Some(value: T)
}
