/** The nullable results of the game's queries (`Line?`, `Box?`, `Players?`). */
module Optional {

  datatype Option<+T> = None | Some(value: T)
}
