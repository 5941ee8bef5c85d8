/** Optional values: `undefined`/`null` in the source, or a value that is not a number. */
module Wrappers {

  datatype Option<+T> = None | Some(value: T)
}
