/**
  The ball: a box 20 across, an integer direction vector and a speed. Each
  frame the ball moves by `direction * speed`; walls and collisions change
  the direction only.
 */
module Balls {
  import opened Geometry

  const Radius: real := 10.0
  const InitialSpeed: real := 3.0
  /** The speed gained on every frame the ball moves. */
  const SpeedGain: real := 0.005
  /** The vertical component a new ball starts with (upwards). */
  const LaunchDy: int := -3

  datatype Direction = Direction(dx: int, dy: int)

  datatype Ball = Ball(pos: Rect, dir: Direction, speed: real)

  /** The horizontal components a new ball can be launched with. */
  predicate LaunchDx(dx: int)
  {
    dx == -2 || dx == -1 || dx == 1 || dx == 2
  }

  /** The directions the ball can ever have: a launch component or the unit
      set by a side hit horizontally, three up or down vertically. */
  predicate ValidDirection(d: Direction)
  {
    LaunchDx(d.dx) && (d.dy == 3 || d.dy == -3)
  }

  /** A new ball centred at (x, y), heading up with horizontal component
      `dx` (the game draws `dx` at random). */
  function New(x: real, y: real, dx: int): (b: Ball)
    requires LaunchDx(dx)
    ensures ValidDirection(b.dir) && b.dir.dx == dx && b.dir.dy < 0
    ensures CenterX(b.pos) == x && CenterY(b.pos) == y
    ensures b.pos.x1 - b.pos.x0 == 2.0 * Radius && b.pos.y1 - b.pos.y0 == 2.0 * Radius
    ensures b.speed == InitialSpeed
  {
    Ball(Centered(x, y, Radius, Radius), Direction(dx, LaunchDy), InitialSpeed)
  }

  predicate TouchesSide(b: Ball, canvasWidth: real)
  {
    b.pos.x0 <= 0.0 || b.pos.x1 >= canvasWidth
  }

  predicate TouchesTop(b: Ball)
  {
    b.pos.y0 <= 0.0
  }

  function Abs(n: int): int
  {
    if n < 0 then -n else n
  }

  /** One frame of flight: the horizontal direction flips when the ball
      touches the left or right wall, the vertical one when it touches the
      top (never at the bottom); then the ball moves by direction times speed
      and the speed grows by 0.005. */
  function Update(b: Ball, canvasWidth: real): (r: Ball)
    ensures TouchesSide(b, canvasWidth) ==> r.dir.dx == -b.dir.dx
    ensures !TouchesSide(b, canvasWidth) ==> r.dir.dx == b.dir.dx
    ensures TouchesTop(b) ==> r.dir.dy == -b.dir.dy
    ensures !TouchesTop(b) ==> r.dir.dy == b.dir.dy
    ensures Abs(r.dir.dx) == Abs(b.dir.dx) && Abs(r.dir.dy) == Abs(b.dir.dy)
    ensures r.pos.x0 - b.pos.x0 == r.dir.dx as real * b.speed
    ensures r.pos.y0 - b.pos.y0 == r.dir.dy as real * b.speed
    ensures r.pos.x1 - r.pos.x0 == b.pos.x1 - b.pos.x0 && r.pos.y1 - r.pos.y0 == b.pos.y1 - b.pos.y0
    ensures r.speed == b.speed + SpeedGain
    ensures ValidDirection(b.dir) ==> ValidDirection(r.dir)
  {
    var dx := if TouchesSide(b, canvasWidth) then -b.dir.dx else b.dir.dx;
    var dy := if TouchesTop(b) then -b.dir.dy else b.dir.dy;
    Ball(Translate(b.pos, dx as real * b.speed, dy as real * b.speed), Direction(dx, dy), b.speed + SpeedGain)
  }

  /** A ball flying into the left wall only is sent back rightwards and moves
      away from the wall in the same frame. */
  lemma LeftWallSendsRight(b: Ball, canvasWidth: real)
    requires b.pos.x0 <= 0.0 && b.pos.x1 < canvasWidth
    requires b.dir.dx < 0 && b.speed > 0.0
    ensures Update(b, canvasWidth).dir.dx > 0
    ensures Update(b, canvasWidth).pos.x0 > b.pos.x0
  {
  }

  /** A ball flying up into the ceiling is sent back down and moves away from
      it in the same frame. */
  lemma CeilingSendsDown(b: Ball, canvasWidth: real)
    requires TouchesTop(b) && b.dir.dy < 0 && b.speed > 0.0
    ensures Update(b, canvasWidth).dir.dy > 0
    ensures Update(b, canvasWidth).pos.y0 > b.pos.y0
  {
  }

  /** The direction change after a collision with the overlapping objects
      `objects` (their boxes, in the order the canvas listed them): several
      objects flip the vertical direction; a single object sends the ball right
      when the ball's centre is right of it, left when left of it, and flips the
      vertical direction otherwise; no object changes nothing. The ball neither
      moves nor changes speed. */
  function Collide(b: Ball, objects: seq<Rect>): (r: Ball)
    ensures r.pos == b.pos && r.speed == b.speed
    ensures |objects| == 0 ==> r.dir == b.dir
    ensures |objects| > 1 ==> r.dir == Direction(b.dir.dx, -b.dir.dy)
    ensures |objects| == 1 && CenterX(b.pos) > objects[0].x1 ==>
              r.dir == Direction(1, b.dir.dy)
    ensures |objects| == 1 && CenterX(b.pos) <= objects[0].x1 && CenterX(b.pos) < objects[0].x0 ==>
              r.dir == Direction(-1, b.dir.dy)
    ensures |objects| == 1 && objects[0].x0 <= CenterX(b.pos) <= objects[0].x1 ==>
              r.dir == Direction(b.dir.dx, -b.dir.dy)
    ensures ValidDirection(b.dir) ==> ValidDirection(r.dir)
  {
    var x := CenterX(b.pos);
    if |objects| > 1 then
      b.(dir := Direction(b.dir.dx, -b.dir.dy))
    else if |objects| == 1 then
      var o := objects[0];
      if x > o.x1 then b.(dir := Direction(1, b.dir.dy))
      else if x < o.x0 then b.(dir := Direction(-1, b.dir.dy))
      else b.(dir := Direction(b.dir.dx, -b.dir.dy))
    else
      b
  }

  /** A falling ball that lands squarely on a single object (its centre
      within the object's horizontal extent) is sent back up, keeping its
      horizontal direction. */
  lemma SquareLandingBouncesUp(b: Ball, o: Rect)
    requires b.dir.dy > 0 && o.x0 <= CenterX(b.pos) <= o.x1
    ensures Collide(b, [o]).dir.dy < 0 && Collide(b, [o]).dir.dx == b.dir.dx
  {
  }

  /** Whatever the objects, a collision changes at most one component of the
      direction, and only by a flip or by setting it to a unit. */
  lemma CollideChangesOneComponent(b: Ball, objects: seq<Rect>)
    ensures var r := Collide(b, objects);
      || r.dir == b.dir
      || (r.dir.dx == b.dir.dx && r.dir.dy == -b.dir.dy)
      || (r.dir.dy == b.dir.dy && (r.dir.dx == 1 || r.dir.dx == -1))
  {
  }
}
