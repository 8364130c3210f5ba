/** The usual optional-value datatype, used where the source yields `undefined`. */
module Options {

  datatype Option<+T> = None | Some(value: T)
}
