/** The closed enumerations shared by the game and both agents. */
module Vocabulary {

  /** What one cell of the one-dimensional board holds. */
  datatype Tile = Empty | Player | Pit | Cheese

  /** What an agent asks the game to do; `Invalid` stands for unparsable human input. */
  datatype Action = Left | Right | Quit | Invalid

  /** The effect of one update of the game, as reported to the caller. */
  datatype MoveResult = NextRound | Win | Loss | Quit

  /** The result of a step that may abort the process (`Panic`) instead of returning. */
  datatype Outcome<+T> = Ok(value: T) | Panic

  /** The two actions that actually move the player. */
  predicate IsMove(a: Action)
  {
    a.Left? || a.Right?
  }
}
