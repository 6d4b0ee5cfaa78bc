/** The optional value every other module uses for a missing row, key or answer. */
module Options {

  datatype Option<+T> = None | Some(value: T)
}
