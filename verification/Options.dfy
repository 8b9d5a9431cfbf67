/** A value that may be missing: what the source writes as `Option`. */
module Options {
  datatype Option<+T> = None | Some(value: T)
}
