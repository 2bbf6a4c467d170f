/**
 * One game session (src/context/GameContext.tsx): the phase, the elapsed
 * time, the arrows on screen, the player's position and the time of the
 * last spawn, together with the entry points that change them and the
 * 16 ms game-loop tick.
 *
 * What the host supplies becomes a parameter: the clock reading `now`, the
 * window size, the random draws of a spawn, the new arrow's id, and the two
 * floating-point steps the tick takes (`aim` picks the far target beyond the
 * player along the spawn direction; `advance` moves an arrow towards its
 * target by its speed).
 */
module Game {
  import opened GameTypes
  import opened GameConstants
  import opened Seqs
  import Collision
  import Random

  /** The interval between ticks; every tick adds exactly this to the elapsed time. */
  const TickMillis: int := 16

  /** How far beyond the window an arrow may be before it is dropped. */
  const CullBuffer: real := 300.0

  /** A step of the floating-point geometry: from a point, towards a point, over a distance. */
  type Motion = (Position, Position, real) -> Position

  /** The centre of a `width` by `height` window, where the player starts. */
  function Center(width: real, height: real): Position
  {
    Position(width / 2.0, height / 2.0)
  }

  /** Inside the window grown by the buffer on every side, bounds included. */
  predicate InPlayArea(p: Position, width: real, height: real)
  {
    -CullBuffer <= p.x <= width + CullBuffer && -CullBuffer <= p.y <= height + CullBuffer
  }

  /** The arrow a spawn creates: at the edge point, angle 0, aimed beyond the player. */
  function NewArrow(id: nat, player: Position, width: real, height: real, draws: Random.SpawnDraws, aim: Motion): Arrow
  {
    var spawn := Random.RandomEdgePosition(width, height, draws);
    Arrow(id, spawn, 0.0, Random.RandomArrowSpeed(draws.speed), aim(spawn, player, width + height))
  }

  /**
   * The spawn updater: below the cap one new arrow is appended, at or above
   * it the list is left alone. So the cap is never exceeded, at most one
   * arrow is added, the earlier arrows stay in front in their order, and
   * the one added is the new arrow.
   */
  function SpawnStep(arrows: seq<Arrow>, newArrow: Arrow): (r: seq<Arrow>)
    ensures |arrows| <= MaxArrows ==> |r| <= MaxArrows
    ensures |arrows| <= |r| <= |arrows| + 1 && r[..|arrows|] == arrows
    ensures |r| == |arrows| + 1 <==> |arrows| < MaxArrows
    ensures |r| > |arrows| ==> r[|arrows|] == newArrow
  {
    if |arrows| < MaxArrows then arrows + [newArrow] else arrows
  }

  /** One arrow after one step towards its target; only its position changes. */
  function MoveArrow(a: Arrow, advance: Motion): Arrow
  {
    a.(position := advance(a.position, a.target, a.speed))
  }

  /** The `map` of the move: every arrow stepped, order kept. */
  function MoveAll(arrows: seq<Arrow>, advance: Motion): (r: seq<Arrow>)
    ensures |r| == |arrows|
    ensures forall i :: 0 <= i < |r| ==>
      r[i].id == arrows[i].id && r[i].angle == arrows[i].angle
      && r[i].speed == arrows[i].speed && r[i].target == arrows[i].target
      && r[i].position == advance(arrows[i].position, arrows[i].target, arrows[i].speed)
  {
    if arrows == [] then [] else [MoveArrow(arrows[0], advance)] + MoveAll(arrows[1..], advance)
  }

  /** The `some` of the collision test. */
  function AnyCollision(player: Position, arrows: seq<Arrow>): (hit: bool)
    ensures hit <==> exists i :: 0 <= i < |arrows| && Collision.CheckCollision(player, arrows[i].position)
  {
    if arrows == [] then false
    else if Collision.CheckCollision(player, arrows[0].position) then true
    else
      var rest := AnyCollision(player, arrows[1..]);
      assert forall i :: 1 <= i < |arrows| ==> arrows[i] == arrows[1..][i - 1];
      rest
  }

  /** The `filter` of the cull: the arrows still in the play area, order kept. */
  function Cull(arrows: seq<Arrow>, width: real, height: real): (r: seq<Arrow>)
    ensures |r| <= |arrows|
    ensures forall a :: a in r <==> a in arrows && InPlayArea(a.position, width, height)
  {
    Filter(arrows, (a: Arrow) => InPlayArea(a.position, width, height))
  }

  /**
   * The arrows after one tick: the spawn (when due), the move and the cull.
   */
  function TickArrows(arrows: seq<Arrow>, spawnDue: bool, newArrow: Arrow, width: real, height: real, advance: Motion): seq<Arrow>
  {
    var spawned := if spawnDue then SpawnStep(arrows, newArrow) else arrows;
    Cull(MoveAll(spawned, advance), width, height)
  }

  // ---------------------------------------------------------------------
  // Properties of one tick's arrows

  /** The cap holds after a tick: the spawn respects it, the move keeps the count and the cull only removes. */
  lemma TickArrowsBounded(arrows: seq<Arrow>, spawnDue: bool, newArrow: Arrow, width: real, height: real, advance: Motion)
    requires |arrows| <= MaxArrows
    ensures |TickArrows(arrows, spawnDue, newArrow, width, height, advance)| <= MaxArrows
  {
  }

  /** The first spawn of a game: into an empty list the new arrow is the only one. */
  lemma SpawnOnEmpty(newArrow: Arrow)
    ensures SpawnStep([], newArrow) == [newArrow]
  {
    var r := SpawnStep([], newArrow);
    assert |r| == 1 && r[0] == newArrow;
  }

  /**
   * The arrows after a tick are exactly the moved arrows that are inside
   * the play area: a moved arrow inside it is kept, one outside it is gone.
   */
  lemma TickArrowsExact(arrows: seq<Arrow>, spawnDue: bool, newArrow: Arrow, width: real, height: real, advance: Motion)
    ensures var spawned := if spawnDue then SpawnStep(arrows, newArrow) else arrows;
      forall i :: 0 <= i < |spawned| ==>
        (MoveArrow(spawned[i], advance) in TickArrows(arrows, spawnDue, newArrow, width, height, advance)
         <==> InPlayArea(advance(spawned[i].position, spawned[i].target, spawned[i].speed), width, height))
  {
    var spawned := if spawnDue then SpawnStep(arrows, newArrow) else arrows;
    var moved := MoveAll(spawned, advance);
    forall i | 0 <= i < |spawned|
      ensures MoveArrow(spawned[i], advance) == moved[i]
    {
    }
  }

  /** The cull keeps the survivors in their relative order (it is a filter). */
  lemma {:induction false} CullKeepsOrder(a: seq<Arrow>, b: seq<Arrow>, width: real, height: real)
    ensures Cull(a + b, width, height) == Cull(a, width, height) + Cull(b, width, height)
  {
    FilterAppend(a, b, (x: Arrow) => InPlayArea(x.position, width, height));
  }

  /** A freshly spawned arrow starts inside the play area. */
  lemma SpawnInPlayArea(width: real, height: real, draws: Random.SpawnDraws)
    requires width > 0.0 && height > 0.0 && draws.Valid()
    ensures InPlayArea(Random.RandomEdgePosition(width, height, draws), width, height)
  {
    Random.EdgePositionOffScreen(width, height, draws);
  }

  // ---------------------------------------------------------------------
  // The session

  /** The game provider's state: React state and refs as fields. */
  class Session {
    var gameState: GameState
    var elapsed: int
    var arrows: seq<Arrow>
    var player: Position
    var lastSpawn: int

    /** What every entry point and every tick preserves. */
    predicate Valid()
      reads this
    {
      && |arrows| <= MaxArrows
      && elapsed >= 0 && elapsed % TickMillis == 0
      && (gameState == Idle ==> arrows == [] && elapsed == 0)
    }

    /** The provider's initial state: idle, nothing on screen, the player centred. */
    constructor(width: real, height: real)
      ensures Valid()
      ensures gameState == Idle && elapsed == 0 && arrows == [] && lastSpawn == 0
      ensures player == Center(width, height)
    {
      gameState := Idle;
      elapsed := 0;
      arrows := [];
      player := Center(width, height);
      lastSpawn := 0;
    }

    /** `updatePlayerPosition`: accepted in every phase. */
    method UpdatePlayerPosition(p: Position)
      requires Valid()
      modifies this
      ensures Valid()
      ensures player == p
      ensures gameState == old(gameState) && elapsed == old(elapsed)
      ensures arrows == old(arrows) && lastSpawn == old(lastSpawn)
    {
      player := p;
    }

    /** `startGame`: from any phase, a new game with the player centred. */
    method StartGame(width: real, height: real)
      requires Valid()
      modifies this
      ensures Valid()
      ensures gameState == Playing && elapsed == 0 && arrows == [] && lastSpawn == 0
      ensures player == Center(width, height)
    {
      gameState := Playing;
      elapsed := 0;
      lastSpawn := 0;
      arrows := [];
      player := Center(width, height);
    }

    /** `endGame`: only the phase changes; the timer and the arrows are kept for the game-over screen. */
    method EndGame()
      requires Valid()
      modifies this
      ensures Valid()
      ensures gameState == GameOver
      ensures elapsed == old(elapsed) && arrows == old(arrows)
      ensures player == old(player) && lastSpawn == old(lastSpawn)
    {
      gameState := GameOver;
    }

    /** `resetGame`: back to idle with the player centred; the last spawn time is not reset. */
    method ResetGame(width: real, height: real)
      requires Valid()
      modifies this
      ensures Valid()
      ensures gameState == Idle && elapsed == 0 && arrows == []
      ensures player == Center(width, height)
      ensures lastSpawn == old(lastSpawn)
    {
      gameState := Idle;
      elapsed := 0;
      arrows := [];
      player := Center(width, height);
    }

    /**
     * The spawn updater of `gameLoop` at clock reading `now`: when more than
     * the spawn interval has passed since the last spawn, the spawn time is
     * moved to `now` and, below the cap, a new arrow aimed beyond the player
     * is appended. The source divides by the distance from the spawn point
     * to the player, so a spawn must not land on the player.
     */
    method SpawnIfDue(now: int, width: real, height: real, draws: Random.SpawnDraws, id: nat, aim: Motion)
      requires Valid() && gameState == Playing
      requires now - lastSpawn > SpawnInterval && |arrows| < MaxArrows
        ==> Random.RandomEdgePosition(width, height, draws) != player
      modifies this
      ensures Valid()
      ensures var spawnDue := now - old(lastSpawn) > SpawnInterval;
        && lastSpawn == (if spawnDue then now else old(lastSpawn))
        && arrows == (if spawnDue then SpawnStep(old(arrows), NewArrow(id, player, width, height, draws, aim)) else old(arrows))
      ensures gameState == old(gameState) && elapsed == old(elapsed) && player == old(player)
    {
      if now - lastSpawn > SpawnInterval {
        lastSpawn := now;
        arrows := SpawnStep(arrows, NewArrow(id, player, width, height, draws, aim));
      }
    }

    /**
     * The move-and-cull updater of `gameLoop`: every arrow steps towards its
     * target, the result reports whether a moved arrow hits the player, and
     * the arrows left in the play area are kept.
     */
    method MoveArrows(width: real, height: real, advance: Motion) returns (collided: bool)
      requires Valid()
      modifies this
      ensures Valid()
      ensures collided == AnyCollision(player, MoveAll(old(arrows), advance))
      ensures arrows == Cull(MoveAll(old(arrows), advance), width, height)
      ensures gameState == old(gameState) && elapsed == old(elapsed)
      ensures player == old(player) && lastSpawn == old(lastSpawn)
    {
      var moved := MoveAll(arrows, advance);
      collided := AnyCollision(player, moved);
      arrows := Cull(moved, width, height);
    }

    /**
     * One run of `gameLoop` at clock reading `now`, returning whether an
     * arrow hit the player (the caller then ends the game). Outside a game
     * no loop is scheduled, so nothing happens.
     */
    method Tick(now: int, width: real, height: real, draws: Random.SpawnDraws, id: nat, aim: Motion, advance: Motion)
      returns (collided: bool)
      requires Valid()
      requires gameState == Playing && now - lastSpawn > SpawnInterval && |arrows| < MaxArrows
        ==> Random.RandomEdgePosition(width, height, draws) != player
      modifies this
      ensures Valid()
      ensures old(gameState) != Playing ==>
        !collided && gameState == old(gameState) && elapsed == old(elapsed)
        && arrows == old(arrows) && player == old(player) && lastSpawn == old(lastSpawn)
      ensures old(gameState) == Playing ==>
        var spawnDue := now - old(lastSpawn) > SpawnInterval;
        var newArrow := NewArrow(id, old(player), width, height, draws, aim);
        var spawned := if spawnDue then SpawnStep(old(arrows), newArrow) else old(arrows);
        && gameState == Playing && player == old(player)
        && elapsed == old(elapsed) + TickMillis
        && lastSpawn == (if spawnDue then now else old(lastSpawn))
        && collided == AnyCollision(player, MoveAll(spawned, advance))
        && arrows == TickArrows(old(arrows), spawnDue, newArrow, width, height, advance)
    {
      if gameState != Playing {
        return false;
      }
      elapsed := elapsed + TickMillis;
      SpawnIfDue(now, width, height, draws, id, aim);
      collided := MoveArrows(width, height, advance);
    }
  }

  // ---------------------------------------------------------------------
  // Sessions driven through their entry points

  /** Resetting twice leaves the same state as resetting once. */
  method ResetTwice(s: Session, width: real, height: real)
    requires s.Valid()
    modifies s
    ensures s.Valid() && s.gameState == Idle && s.arrows == [] && s.elapsed == 0
    ensures s.player == Center(width, height) && s.lastSpawn == old(s.lastSpawn)
  {
    s.ResetGame(width, height);
    var once := (s.gameState, s.elapsed, s.arrows, s.player, s.lastSpawn);
    s.ResetGame(width, height);
    assert (s.gameState, s.elapsed, s.arrows, s.player, s.lastSpawn) == once;
  }

  /** Ending twice leaves the same state as ending once. */
  method EndTwice(s: Session)
    requires s.Valid()
    modifies s
    ensures s.Valid() && s.gameState == GameOver
    ensures s.elapsed == old(s.elapsed) && s.arrows == old(s.arrows)
    ensures s.player == old(s.player) && s.lastSpawn == old(s.lastSpawn)
  {
    s.EndGame();
    var once := (s.gameState, s.elapsed, s.arrows, s.player, s.lastSpawn);
    s.EndGame();
    assert (s.gameState, s.elapsed, s.arrows, s.player, s.lastSpawn) == once;
  }

  /**
   * The first tick of a new game: the clock is far past the reset spawn
   * time, so an arrow is spawned at once and the timer reads 16 ms. A
   * collision reported by a tick ends the game with the timer kept.
   */
  method FirstTick(s: Session, now: int, width: real, height: real, draws: Random.SpawnDraws, id: nat, aim: Motion, advance: Motion)
    returns (collided: bool)
    requires s.Valid()
    requires now > SpawnInterval && width > 0.0 && height > 0.0 && draws.Valid()
    modifies s
    ensures s.Valid() && s.elapsed == TickMillis && s.lastSpawn == now
    ensures var first := MoveAll([NewArrow(id, Center(width, height), width, height, draws, aim)], advance);
      && s.arrows == Cull(first, width, height)
      && collided == AnyCollision(Center(width, height), first)
    ensures collided ==> s.gameState == GameOver
    ensures !collided ==> s.gameState == Playing
  {
    s.StartGame(width, height);
    Random.SpawnAwayFromOnScreenPlayer(width, height, draws, s.player);
    var newArrow := NewArrow(id, s.player, width, height, draws, aim);
    SpawnOnEmpty(newArrow);
    collided := s.Tick(now, width, height, draws, id, aim, advance);
    assert s.arrows == Cull(MoveAll([newArrow], advance), width, height);
    if collided {
      s.EndGame();
    }
  }
}
