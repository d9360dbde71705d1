/**
 * The records the game loop and the bot share (game.h): a player and the turn in progress.
 */
module Turns {
  import opened Tiles

  /**
   * A player: colour, meeples left in supply and points (both unsigned in the program, so
   * natural numbers here), and whether the bot plays for them.
   */
  datatype Player = Player(color: Color, meeple: nat, points: nat, bot: bool)

  /** The turn in progress: flags, the cell, the drawn tile as rotated so far, and the meeple to place. */
  datatype Turn = Turn(active: bool, skip: bool, x: int, y: int, tile: Tile, meeple: Meeple)

  /** A zeroed Meeple: no colour, segment 0. */
  const NO_MEEPLE: Meeple := Meeple(NO_COLOR, 0)
}
