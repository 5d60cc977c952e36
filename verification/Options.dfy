/** A value that may be absent: Go's nil pointer, or the second result of a map
    lookup. */
module Options {
  datatype Option<+T> = None | Some(value: T)
}
