/** The "no value" result of the move searches: a missing move (`null` or `undefined` in the game). */
module Optional {

  datatype Option<+T> = None | Some(value: T)
}
