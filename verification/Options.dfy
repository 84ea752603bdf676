/** What may be absent: nil in the source, or the value of a panic. */
module Options {
  datatype Option<+T> = None | Some(value: T)
}
