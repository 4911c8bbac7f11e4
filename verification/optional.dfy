/** The usual Some/None datatype, for lookups that can miss. */
module Optional {

  datatype Option<+T> = None | Some(value: T)
}
