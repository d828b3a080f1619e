/** A value that may be absent, for the source's NULL returns and unset errors. */
module Options {
  datatype Option<+T> = None | Some(value: T)
}
