/** The optional value used where the source has `T | null` or a missing entry. */
module Optional {

  datatype Option<+T> = None | Some(value: T)
}
