/** The optional value shared by the tile server and the link monitor. */
module Options {
  datatype Option<+T> = None | Some(value: T)
}
