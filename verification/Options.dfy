/** A value that may be missing, shared by all the models. */
module Options {
  datatype Option<+T> = None | Some(value: T)
}
