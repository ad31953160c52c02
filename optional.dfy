/** The usual Some/None wrapper, used for "no value yet" results. */
module Optional {
  datatype Option<+T> = None | Some(value: T)
}
