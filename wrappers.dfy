/** Optional values: Swift's `T?` is modelled as `Option<T>`, with `None` for `nil`. */
module Wrappers {

  datatype Option<+T> = None | Some(value: T)
}
