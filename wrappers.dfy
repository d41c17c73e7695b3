/** An optional value: stands for a TypeScript field or argument that may be `undefined`. */
module Wrappers {

  datatype Option<+T> = None | Some(value: T)
}
