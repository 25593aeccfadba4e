/** The optional value a parse returns instead of throwing. */
module Optional {

  datatype Option<+T> = None | Some(value: T)
}
