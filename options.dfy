/** Optional values: the model's stand-in for Python's `None` and for numpy's NaN
    "unknown displacement" sentinel. */
module Options {
  datatype Option<+T> = None | Some(value: T)
}
