/** A value that may be missing: a null pointer, an absent entry, a failed conversion. */
module Optional {
  datatype Option<+T> = None | Some(value: T)
}
