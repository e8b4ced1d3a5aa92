/** The fixed configuration of the game (src/utils/constants.ts). */
module Constants {

  /** The board is BoardWidth x BoardWidth cells. */
  const BoardWidth: int := 10

  /** The lengths of the ships every player must place. */
  const ShipsToPlace: seq<int> := [5, 4, 3, 3, 2]

  /** The four phases of a game, in the order they are played. */
  datatype GamePhase = InitPhase | ShipPhase | ShootPhase | FinalPhase
}
