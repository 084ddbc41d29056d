/** The optional value used for "found / not found" and "present / absent" results. */
module Options {
  datatype Option<+T> = None | Some(value: T)
}
