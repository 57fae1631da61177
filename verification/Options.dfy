/** The optional value shared by the other modules: Python's `None` or a value. */
module Options {
  datatype Option<+T> = None | Some(value: T)
}
