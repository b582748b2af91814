/**
  A brick: a 70 by 20 box with a counter of the hits it can still take.
  The game keeps every brick it ever created in its item table; a brick whose
  counter runs out is only removed from the canvas, which `onCanvas` records.
 */
module Bricks {
  import opened Geometry

  const Width: real := 70.0
  const Height: real := 20.0

  datatype Brick = Brick(pos: Rect, hits: int, onCanvas: bool)

  /** A new brick centred at (x, y) that takes `hits` hits. */
  function New(x: real, y: real, hits: int): (b: Brick)
    ensures b.onCanvas && b.hits == hits
    ensures CenterX(b.pos) == x && CenterY(b.pos) == y
    ensures b.pos.x1 - b.pos.x0 == Width && b.pos.y1 - b.pos.y0 == Height
  {
    Brick(Centered(x, y, Width / 2.0, Height / 2.0), hits, true)
  }

  /** A brick is on the canvas exactly while it has hits left. */
  predicate Consistent(b: Brick)
  {
    b.onCanvas <==> b.hits > 0
  }

  /** One hit: the counter drops by one, and the brick leaves the canvas when
      the new count is zero or less. Deleting an item already gone from the
      canvas does nothing, so a removed brick stays removed. */
  function Hit(b: Brick): (r: Brick)
    ensures r.hits == b.hits - 1 && r.pos == b.pos
    ensures r.hits <= 0 ==> !r.onCanvas
    ensures r.hits > 0 ==> r.onCanvas == b.onCanvas
    ensures Consistent(b) ==> Consistent(r)
  {
    var left := b.hits - 1;
    if left <= 0 then Brick(b.pos, left, false) else b.(hits := left)
  }

  /** `k` hits in a row. */
  function HitTimes(b: Brick, k: nat): (r: Brick)
    ensures r.hits == b.hits - k && r.pos == b.pos
    ensures k == 0 ==> r == b
    ensures k > 0 ==> (r.onCanvas <==> b.onCanvas && r.hits > 0)
    decreases k
  {
    if k == 0 then b else Hit(HitTimes(b, k - 1))
  }

  /** A consistent brick stays consistent through any number of hits. */
  lemma HitTimesConsistent(b: Brick, k: nat)
    requires Consistent(b)
    ensures Consistent(HitTimes(b, k))
  {
  }

  /** A brick created with `hits` hits is still on the canvas after `k` hits
      exactly when `k < hits`. */
  lemma NewBrickLifetime(x: real, y: real, hits: int, k: nat)
    requires hits >= 1
    ensures HitTimes(New(x, y, hits), k).onCanvas <==> k < hits
  {
  }

  /** A brick of the top row (two hits) survives its first hit and is removed
      by its second. */
  lemma TwoHitBrick(x: real, y: real)
    ensures Hit(New(x, y, 2)).onCanvas && Hit(New(x, y, 2)).hits == 1
    ensures !Hit(Hit(New(x, y, 2))).onCanvas
  {
  }
}
