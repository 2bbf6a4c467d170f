/**
 * Spawn-point and speed sampling (src/utils/random.ts). Every call to
 * Math.random becomes an explicit draw in [0, 1), so sampling is a
 * deterministic function of its draws.
 */
module Random {
  import opened GameTypes
  import opened GameConstants
  import opened RealFacts

  /** How far outside the screen arrows appear. */
  const SpawnOffset: real := 150.0

  /** A value Math.random can return. */
  predicate IsDraw(r: real)
  {
    0.0 <= r < 1.0
  }

  /**
   * The `Math.random()` draws of one spawn that the model keeps, in the
   * order the source makes them: the edge, the side of the middle half, the
   * offset along the edge, and the speed. The source draws once more, for
   * the arrow's id, between the offset and the speed; that draw is replaced
   * by the caller-supplied id.
   */
  datatype SpawnDraws = SpawnDraws(edge: real, side: real, along: real, speed: real)
  {
    predicate Valid()
    {
      IsDraw(edge) && IsDraw(side) && IsDraw(along) && IsDraw(speed)
    }
  }

  /** The draw `r` stretched over a span (kept as its own term so lemmas about it apply by name). */
  function Scale(r: real, span: real): real
  {
    r * span
  }

  /** A draw scales a non-negative span to somewhere in [0, span), or to 0 when the span is empty. */
  lemma ScaleBounds(r: real, span: real)
    requires IsDraw(r) && span >= 0.0
    ensures 0.0 <= Scale(r, span)
    ensures span > 0.0 ==> Scale(r, span) < span
    ensures span == 0.0 ==> Scale(r, span) == 0.0
  {
    MulNonNegative(r, span);
    if span > 0.0 {
      MulPositive(1.0 - r, span);
      assert (1.0 - r) * span == span - r * span;
    }
  }

  /** `randomBetween`: scales the draw `r` onto the interval from `min` to `max`. */
  function RandomBetween(r: real, min: real, max: real): real
  {
    Scale(r, max - min) + min
  }

  /** A draw lands in [min, max) when the interval is non-empty, and on `min` when it is a point. */
  lemma RandomBetweenBounds(r: real, min: real, max: real)
    requires IsDraw(r) && min <= max
    ensures min <= RandomBetween(r, min, max)
    ensures min < max ==> RandomBetween(r, min, max) < max
    ensures min == max ==> RandomBetween(r, min, max) == min
  {
    ScaleBounds(r, max - min);
  }

  /** `Math.floor(Math.random() * 4)`: 0 top, 1 right, 2 bottom, 3 left. */
  function EdgeIndex(r: real): int
  {
    (r * 4.0).Floor
  }

  /** Every draw selects one of the four edges, so the fallback branch is never taken. */
  lemma EdgeIndexInRange(r: real)
    requires IsDraw(r)
    ensures 0 <= EdgeIndex(r) <= 3
  {
  }

  /** The coordinate along an edge: in the first or the last quarter of `extent`, never the middle half. */
  function AlongEdge(extent: real, side: real, along: real): real
  {
    if side < 0.5 then RandomBetween(along, 0.0, extent * 0.25)
    else RandomBetween(along, extent * 0.75, extent)
  }

  /** The first or the last quarter of [0, extent). */
  predicate OutsideMiddleHalf(v: real, extent: real)
  {
    (0.0 <= v < extent * 0.25) || (extent * 0.75 <= v < extent)
  }

  /** The side draw picks the quarter; the coordinate stays inside it. */
  lemma AlongEdgeBounds(extent: real, side: real, along: real)
    requires extent > 0.0 && IsDraw(along)
    ensures side < 0.5 ==> 0.0 <= AlongEdge(extent, side, along) < extent * 0.25
    ensures side >= 0.5 ==> extent * 0.75 <= AlongEdge(extent, side, along) < extent
    ensures OutsideMiddleHalf(AlongEdge(extent, side, along), extent)
    ensures !(extent * 0.25 <= AlongEdge(extent, side, along) < extent * 0.75)
  {
    if side < 0.5 {
      RandomBetweenBounds(along, 0.0, extent * 0.25);
    } else {
      RandomBetweenBounds(along, extent * 0.75, extent);
    }
  }

  /** `randomEdgePosition`: a point 150 units outside one edge of a `width` by `height` screen. */
  function RandomEdgePosition(width: real, height: real, d: SpawnDraws): Position
  {
    var edge := EdgeIndex(d.edge);
    if edge == 0 then Position(AlongEdge(width, d.side, d.along), -SpawnOffset)
    else if edge == 1 then Position(width + SpawnOffset, AlongEdge(height, d.side, d.along))
    else if edge == 2 then Position(AlongEdge(width, d.side, d.along), height + SpawnOffset)
    else if edge == 3 then Position(-SpawnOffset, AlongEdge(height, d.side, d.along))
    else Position(-SpawnOffset, -SpawnOffset)
  }

  /**
   * Top and bottom spawns sit at y = -150 and y = height + 150 with x off the
   * middle half of the width; right and left spawns sit at x = width + 150 and
   * x = -150 with y off the middle half of the height.
   */
  lemma EdgePositionOnChosenEdge(width: real, height: real, d: SpawnDraws)
    requires width > 0.0 && height > 0.0 && d.Valid()
    ensures var p := RandomEdgePosition(width, height, d);
      match EdgeIndex(d.edge)
      case 0 => p.y == -SpawnOffset && OutsideMiddleHalf(p.x, width)
      case 1 => p.x == width + SpawnOffset && OutsideMiddleHalf(p.y, height)
      case 2 => p.y == height + SpawnOffset && OutsideMiddleHalf(p.x, width)
      case _ => EdgeIndex(d.edge) == 3 && p.x == -SpawnOffset && OutsideMiddleHalf(p.y, height)
  {
    EdgeIndexInRange(d.edge);
    AlongEdgeBounds(width, d.side, d.along);
    AlongEdgeBounds(height, d.side, d.along);
  }

  /** A spawn point lies exactly 150 beyond the screen in one coordinate and within its span in the other. */
  predicate JustOffScreen(p: Position, width: real, height: real)
  {
    || (p.y == -SpawnOffset && 0.0 <= p.x < width)
    || (p.x == width + SpawnOffset && 0.0 <= p.y < height)
    || (p.y == height + SpawnOffset && 0.0 <= p.x < width)
    || (p.x == -SpawnOffset && 0.0 <= p.y < height)
  }

  /** Every spawn point is off screen: never inside [0, width] x [0, height]. */
  lemma EdgePositionOffScreen(width: real, height: real, d: SpawnDraws)
    requires width > 0.0 && height > 0.0 && d.Valid()
    ensures JustOffScreen(RandomEdgePosition(width, height, d), width, height)
    ensures var p := RandomEdgePosition(width, height, d);
      !(0.0 <= p.x <= width && 0.0 <= p.y <= height)
  {
    EdgePositionOnChosenEdge(width, height, d);
  }

  /** So a spawn point never coincides with a player standing on the screen. */
  lemma SpawnAwayFromOnScreenPlayer(width: real, height: real, d: SpawnDraws, player: Position)
    requires width > 0.0 && height > 0.0 && d.Valid()
    requires 0.0 <= player.x <= width && 0.0 <= player.y <= height
    ensures RandomEdgePosition(width, height, d) != player
  {
    EdgePositionOffScreen(width, height, d);
  }

  /** `randomArrowSpeed`: a speed between the configured bounds. */
  function RandomArrowSpeed(r: real): real
  {
    RandomBetween(r, ArrowMinSpeed, ArrowMaxSpeed)
  }

  /** The speed lies within the configured bounds; with both at 5 it is exactly 5, whatever the draw. */
  lemma ArrowSpeedInRange(r: real)
    requires IsDraw(r)
    ensures ArrowMinSpeed <= RandomArrowSpeed(r) <= ArrowMaxSpeed
    ensures RandomArrowSpeed(r) == 5.0
  {
    RandomBetweenBounds(r, ArrowMinSpeed, ArrowMaxSpeed);
  }
}
