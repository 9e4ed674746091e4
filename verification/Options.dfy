/** Absent values: a NULL, a child that is attached to no node. */
module Options {
  datatype Option<+T> = None | Some(value: T)
}
