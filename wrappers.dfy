/** Optional values, used where the chunker's Python code returns `None`. */
module Wrappers {

  datatype Option<+T> = None | Some(value: T)
}
