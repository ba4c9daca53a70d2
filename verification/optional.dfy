/** A value that may be absent: Python's `None` or a value. */
module Optional {

  /** `None` when there is no value, `Some(value)` when there is one. */
  datatype Option<T> = None | Some(value: T)
}
