/** A value that may be absent: a failed parse, an input that is not a number. */
module Optional {

  datatype Option<+T> = None | Some(value: T)
}
