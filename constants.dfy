/** Tuning constants of the game (src/constants/game.ts). */
module GameConstants {
  /** Radius of the player's circle, in screen units. */
  const PlayerRadius: real := 20.0
  /** Visual size of an arrow; half of it counts towards a hit. */
  const ArrowSize: real := 15.0
  /** Bounds of the speed drawn for a new arrow (both 5 in this version). */
  const ArrowMinSpeed: real := 5.0
  const ArrowMaxSpeed: real := 5.0
  /** Milliseconds that must pass (strictly) between two spawn attempts. */
  const SpawnInterval: int := 450
  /** Cap on the number of arrows alive at once. */
  const MaxArrows: nat := 20
}
