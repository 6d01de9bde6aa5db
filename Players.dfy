/** The two enumerations the game logic dispatches on, and the swap between the players. */
module Players {

  /** The mark a player holds; X always moves first. */
  datatype Player = X | O

  /** How a finished game ended, as recorded in `Game.Winner`. */
  datatype GameOverType = Tie | X | O

  /** `Game.GetOpposingPlayer`: the other player of the two. */
  function GetOpposingPlayer(player: Player): (r: Player)
    ensures r != player
  {
    match player
    case X => Player.O
    case O => Player.X
  }

  /** Swapping twice gives back the player, so the swap is a bijection of {X, O}. */
  lemma OpposingIsInvolution(player: Player)
    ensures GetOpposingPlayer(GetOpposingPlayer(player)) == player
    ensures GetOpposingPlayer(player) == (if player == Player.X then Player.O else Player.X)
  {
  }
}
