/** Optional values: TypeScript's `T | undefined` and JavaScript's `null`-or-value. */
module Wrappers {

  datatype Option<+T> = None | Some(value: T)
}
