/** The value types the game is built from (src/types/game.ts). */
module GameTypes {
  /** A point on the screen; positions are replaced, never mutated. */
  datatype Position = Position(x: real, y: real)

  /**
   * A projectile. `angle` is always 0 in the game logic (the renderer
   * computes its own); `speed` and `target` are fixed when the arrow spawns.
   */
  datatype Arrow = Arrow(id: nat, position: Position, angle: real, speed: real, target: Position)

  /** The three phases of a session. */
  datatype GameState = Idle | Playing | GameOver
}
