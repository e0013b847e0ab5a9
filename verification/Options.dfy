// A value that may be missing: a NULL pointer, or the result of code that may end the program instead.
module Options {

  datatype Option<T> = None | Some(value: T)
}
