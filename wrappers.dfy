/** Optional values: a JSON `null`, or a kind of artifact absent from a manifest entry, is `None`. */
module Wrappers {
  datatype Option<+T> = None | Some(value: T)
}
