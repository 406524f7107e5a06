/** Optional values: Python's `X | None`. */
module Optional {

  /** `None` is Python's `None`; `Some(v)` is a present value `v`. */
  datatype Option<+T> = None | Some(value: T)
}
