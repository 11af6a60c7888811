/** The usual Some/None wrapper, for values the source represents with `None`. */
module Optional {

  datatype Option<+T> = None | Some(value: T)
}
