/** The optional result the allocator returns in place of a NULL pointer. */
module Options {
  datatype Option<T> = None | Some(value: T)
}
