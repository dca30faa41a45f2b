/** The usual Some/None wrapper, used for Go's nil-or-value results. */
module Optional {
  datatype Option<+T> = None | Some(value: T)
}
