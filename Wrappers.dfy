/** Optional values: a JavaScript `T | null | undefined` becomes an `Option<T>`. */
module Wrappers {

  datatype Option<+T> = None | Some(value: T)

}
