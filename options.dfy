/** The optional value used where the Ruby code returns `nil` or reads a missing entry. */
module Options {

  datatype Option<+T> = None | Some(value: T)
}
