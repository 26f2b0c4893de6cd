// The Some/None datatype used where the sources have a possibly missing value.
module Options {
  datatype Option<+T> = None | Some(value: T)
}
