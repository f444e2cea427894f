/** An optional value: a null string, a missing table entry, a program without a meaning. */
module Options {
  datatype Option<+T> = None | Some(value: T)
}
