/**
 * Hit test between the player and an arrow (src/utils/collision.ts).
 * Dafny has no square root, so the Euclidean distance is carried squared;
 * the lemmas below show that comparing squares is the source's test.
 */
module Collision {
  import opened GameTypes
  import opened GameConstants
  import opened RealFacts

  /** The hit distance: the player's radius plus half an arrow's size (27.5). */
  const HitRadius: real := PlayerRadius + ArrowSize / 2.0

  /** The square of the Euclidean distance between two points. */
  function SquaredDistance(p1: Position, p2: Position): (d: real)
    ensures d >= 0.0
    ensures p1 == p2 ==> d == 0.0
  {
    var dx, dy := p2.x - p1.x, p2.y - p1.y;
    SquareNonNegative(dx);
    SquareNonNegative(dy);
    dx * dx + dy * dy
  }

  /** True when the arrow's point lies strictly within the hit distance of the player. */
  predicate CheckCollision(player: Position, arrow: Position)
  {
    SquaredDistance(player, arrow) < HitRadius * HitRadius
  }

  /** For a non-negative length, being under the hit distance is being under it squared. */
  lemma BelowHitRadius(d: real)
    requires d >= 0.0
    ensures d < HitRadius <==> d * d < HitRadius * HitRadius
  {
    assert HitRadius == 27.5;
    if d < 27.5 {
      MulNonNegative(d, 27.5 - d);
      assert d * (27.5 - d) == 27.5 * d - d * d;
    } else {
      MulNonNegative(d, d - 27.5);
      assert d * (d - 27.5) == d * d - 27.5 * d;
    }
  }

  /** The distance is symmetric in its arguments. */
  lemma DistanceSymmetric(p1: Position, p2: Position)
    ensures SquaredDistance(p1, p2) == SquaredDistance(p2, p1)
  {
  }

  /**
   * The squared test is the source's test: for the true distance `d`
   * (the non-negative root of the squared distance), there is a hit
   * exactly when `d < 27.5`.
   */
  lemma CollisionIffWithinHitRadius(player: Position, arrow: Position, d: real)
    requires d >= 0.0 && d * d == SquaredDistance(player, arrow)
    ensures CheckCollision(player, arrow) <==> d < HitRadius
  {
    BelowHitRadius(d);
  }

  /** The squared distance to a point `k` away along one axis is `k * k`. */
  lemma AxisDistance(player: Position, k: real)
    ensures SquaredDistance(player, Position(player.x + k, player.y)) == k * k
    ensures SquaredDistance(player, Position(player.x, player.y - k)) == k * k
  {
    var dx, dy := (player.x + k) - player.x, player.y - player.y;
    assert dx == k && dy == 0.0;
    assert dy * dy == 0.0;
    var ex, ey := player.x - player.x, (player.y - k) - player.y;
    assert ex == 0.0 && ey == -k;
    assert ex * ex == 0.0;
    assert ey * ey == k * k;
  }

  /**
   * The test is strict: an arrow exactly 27.5 away, in any direction, does
   * not hit; in particular the points 27.5 away along either axis do not.
   */
  lemma BoundaryIsNoHit(player: Position)
    ensures forall arrow :: SquaredDistance(player, arrow) == HitRadius * HitRadius ==> !CheckCollision(player, arrow)
    ensures !CheckCollision(player, Position(player.x + HitRadius, player.y))
    ensures !CheckCollision(player, Position(player.x, player.y - HitRadius))
  {
    AxisDistance(player, HitRadius);
  }

  /** Any distance short of 27.5 is a hit; any distance beyond it is not. */
  lemma HitJustInsideNotOutside(player: Position, eps: real)
    requires 0.0 < eps <= HitRadius
    ensures CheckCollision(player, Position(player.x + (HitRadius - eps), player.y))
    ensures !CheckCollision(player, Position(player.x + (HitRadius + eps), player.y))
  {
    AxisDistance(player, HitRadius - eps);
    AxisDistance(player, HitRadius + eps);
    BelowHitRadius(HitRadius - eps);
    BelowHitRadius(HitRadius + eps);
  }

  /** If a point collides, every point at most as far from the player collides too. */
  lemma CollisionMonotone(player: Position, near: Position, far: Position, dNear: real, dFar: real)
    requires dNear >= 0.0 && dNear * dNear == SquaredDistance(player, near)
    requires dFar >= 0.0 && dFar * dFar == SquaredDistance(player, far)
    requires dNear <= dFar && CheckCollision(player, far)
    ensures CheckCollision(player, near)
  {
    CollisionIffWithinHitRadius(player, far, dFar);
    CollisionIffWithinHitRadius(player, near, dNear);
  }

  /** An arrow on the player's own point always hits. */
  lemma SamePointCollides(p: Position)
    ensures CheckCollision(p, p)
  {
  }
}
