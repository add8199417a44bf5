/** The optional value used where the scripts return early or look something up. */
module Options {

  datatype Option<+T> = None | Some(value: T)
}
