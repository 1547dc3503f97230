/** A value that may be missing, for the `undefined` and `null` of the source. */
module Options {
  datatype Option<+T> = None | Some(value: T)
}
