/** An optional value, used where the game has "not yet" or "cannot parse". */
module Options {
  datatype Option<+T> = None | Some(value: T)
}
