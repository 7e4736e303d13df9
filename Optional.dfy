/** A value that may be absent: a chat's stored configuration, a dictionary lookup. */
module Optional {

  datatype Option<+T> = None | Some(value: T)
}
