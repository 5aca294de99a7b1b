/** Optional values: `None` stands for Python's `None` (and, for a running minimum, `np.inf`). */
module Wrappers {
  datatype Option<+T> = None | Some(value: T)
}
