/** A value that may be missing: Python's `None`, Go's nil. */
module Options {

  datatype Option<+T> = None | Some(value: T)
}
