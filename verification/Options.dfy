/** The optional value that stands for Python's `None` in the rest of the model. */
module Options {
  datatype Option<+T> = None | Some(value: T)
}
