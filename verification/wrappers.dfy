/** Optional values, for the places where the Python code returns `None`
    instead of producing a value. */
module Wrappers {

  datatype Option<+T> = None | Some(value: T)
}
