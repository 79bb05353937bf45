/** Optional results: `None` is what a retry loop yields when the draws it was given run out. */
module Wrappers {

  datatype Option<+T> = None | Some(value: T)
}
