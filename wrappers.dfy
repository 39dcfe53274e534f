/** An optional value: `null`/`undefined` in the source, where it stands for "no value". */
module Wrappers {
  datatype Option<+T> = None | Some(value: T)
}
