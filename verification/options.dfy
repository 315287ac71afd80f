module Options {

  /** A value that may be absent, standing for the game's `null`. */
  datatype Option<+T> = None | Some(value: T)
}
