/** The absent-or-present value used where the compiler returns a node pointer that may be NULL. */
module Options {
  datatype Option<T> = None | Some(value: T)
}
