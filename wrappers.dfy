/** Optional values: the model's stand-in for JavaScript's `null` and for a
    dialog the user cancelled. */
module Wrappers {

  datatype Option<+T> = None | Some(value: T)
}
