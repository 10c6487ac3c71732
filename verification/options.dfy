/** The absent-or-present value that the player expresses with `null` or `undefined`. */
module Options {

  datatype Option<+T> = None | Some(value: T)
}
