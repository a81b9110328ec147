/** The nullable references and nullable numbers of the modelled code. */
module Options {
  datatype Option<+T> = None | Some(value: T)
}
