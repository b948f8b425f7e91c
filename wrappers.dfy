/** Optional values: `None` stands for Python's `None` and for a report cell shown as "N/A". */
module Wrappers {
  datatype Option<+T> = None | Some(value: T)
}
