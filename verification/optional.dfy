/** A value that may be absent: the model's stand-in for JavaScript's `null`/`undefined`. */
module Optional {
  datatype Option<+T> = None | Some(value: T)
}
