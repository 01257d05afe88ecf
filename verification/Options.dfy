/** The one wrapper type the models share: a value that may be absent (a null pointer in the C code). */
module Options {
  datatype Option<+T> = None | Some(value: T)
}
