/** Optional values, standing for JavaScript's `null`/`undefined` where the page reads them. */
module Wrappers {

  datatype Option<+T> = None | Some(value: T)
}
