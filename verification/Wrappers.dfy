/** A value that may be missing, as in a TypeScript `T | undefined`. */
module Wrappers {
  datatype Option<+T> = None | Some(value: T)
}
