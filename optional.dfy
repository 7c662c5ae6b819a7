/** The optional value the components pass around: a record handed to a
    callback, a team being edited, a response that may be missing. */
module Optional {
  datatype Option<T> = None | Some(value: T)
}
