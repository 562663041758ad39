/** The conventional optional value, standing for a Python value that may be `None`. */
module Options {
  datatype Option<T> = None | Some(value: T)
}
