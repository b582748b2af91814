/**
  The paddle: a box on the canvas, the logical width the game shrinks after
  every lost life, and whether a ball is currently resting on it (the ball
  sits on the paddle between a respawn and the start key).
 */
module Paddles {
  import opened Geometry

  const InitialWidth: int := 100
  const Height: real := 10.0
  /** Shrinking stops once the width is no longer above this floor. */
  const MinWidth: int := 40
  const ShrinkStep: int := 10

  datatype Paddle = Paddle(pos: Rect, width: int, holdsBall: bool)

  /** The shape every paddle of the game keeps: its box is exactly `width`
      wide, and `width` is one of 40, 50, ..., 100. */
  predicate WellFormed(p: Paddle)
  {
    && p.pos.x1 - p.pos.x0 == p.width as real
    && MinWidth <= p.width <= InitialWidth
    && p.width % ShrinkStep == 0
  }

  /** A new paddle centred at (x, y), 100 wide and 10 high, holding no ball. */
  function New(x: real, y: real): (p: Paddle)
    ensures WellFormed(p) && p.width == InitialWidth
    ensures CenterX(p.pos) == x && CenterY(p.pos) == y && p.pos.y1 - p.pos.y0 == Height
    ensures !p.holdsBall
  {
    Paddle(Centered(x, y, InitialWidth as real / 2.0, Height / 2.0), InitialWidth, false)
  }

  /** Whether a horizontal move by `offset` keeps the paddle on a canvas
      `canvasWidth` wide. */
  predicate Accepts(p: Paddle, offset: real, canvasWidth: real)
  {
    p.pos.x0 + offset >= 0.0 && p.pos.x1 + offset <= canvasWidth
  }

  /** A key press: the paddle moves by `offset` when the move keeps it on the
      canvas, and otherwise stays where it is. */
  function Move(p: Paddle, offset: real, canvasWidth: real): (r: Paddle)
    ensures r.width == p.width && r.holdsBall == p.holdsBall
    ensures r.pos.y0 == p.pos.y0 && r.pos.y1 == p.pos.y1
    ensures r.pos.x1 - r.pos.x0 == p.pos.x1 - p.pos.x0
    ensures Accepts(p, offset, canvasWidth) ==> r.pos.x0 == p.pos.x0 + offset
    ensures !Accepts(p, offset, canvasWidth) ==> r == p
    ensures r.pos != p.pos <==> Accepts(p, offset, canvasWidth) && offset != 0.0
  {
    if Accepts(p, offset, canvasWidth) then p.(pos := Translate(p.pos, offset, 0.0)) else p
  }

  /** A paddle inside the canvas stays inside it, whatever the offset. */
  lemma MoveStaysInside(p: Paddle, offset: real, canvasWidth: real)
    requires InsideHorizontally(p.pos, canvasWidth)
    ensures InsideHorizontally(Move(p, offset, canvasWidth).pos, canvasWidth)
  {
  }

  /** For a paddle inside the canvas, an accepted move is undone by the
      opposite move, which is accepted too. */
  lemma MoveUndo(p: Paddle, offset: real, canvasWidth: real)
    requires InsideHorizontally(p.pos, canvasWidth)
    requires Accepts(p, offset, canvasWidth)
    ensures Accepts(Move(p, offset, canvasWidth), -offset, canvasWidth)
    ensures Move(Move(p, offset, canvasWidth), -offset, canvasWidth) == p
  {
  }

  /** After a lost life the paddle loses 10 of width while it is wider than 40;
      its box keeps its left edge and vertical extent and ends `width` to the
      right of the left edge. */
  function Shrink(p: Paddle): (r: Paddle)
    ensures p.width > MinWidth ==> r.width == p.width - ShrinkStep
    ensures p.width <= MinWidth ==> r.width == p.width
    ensures r.pos.x0 == p.pos.x0 && r.pos.y0 == p.pos.y0 && r.pos.y1 == p.pos.y1
    ensures r.pos.x1 == r.pos.x0 + r.width as real
    ensures r.holdsBall == p.holdsBall
    ensures WellFormed(p) ==> WellFormed(r) && r.pos.x1 <= p.pos.x1
  {
    var w := if p.width > MinWidth then p.width - ShrinkStep else p.width;
    Paddle(Rect(p.pos.x0, p.pos.y0, p.pos.x0 + w as real, p.pos.y1), w, p.holdsBall)
  }

  /** `n` shrinks in a row. */
  function ShrinkTimes(p: Paddle, n: nat): Paddle
    decreases n
  {
    if n == 0 then p else Shrink(ShrinkTimes(p, n - 1))
  }

  function Max(a: int, b: int): int
  {
    if a >= b then a else b
  }

  /** Starting from the initial 100, the width after `n` shrinks is
      `max(40, 100 - 10 n)`: it never drops below the floor. */
  lemma {:induction false} ShrinkTimesWidth(p: Paddle, n: nat)
    requires p.width == InitialWidth
    ensures ShrinkTimes(p, n).width == Max(MinWidth, InitialWidth - ShrinkStep * n)
    ensures ShrinkTimes(p, n).width >= MinWidth
    decreases n
  {
    if n > 0 {
      ShrinkTimesWidth(p, n - 1);
    }
  }

  /** A well-formed paddle stays well formed through any number of shrinks
      and never grows to the right. */
  lemma {:induction false} ShrinkTimesWellFormed(p: Paddle, n: nat)
    requires WellFormed(p)
    ensures WellFormed(ShrinkTimes(p, n))
    ensures ShrinkTimes(p, n).pos.x0 == p.pos.x0
    ensures ShrinkTimes(p, n).pos.x1 <= p.pos.x1
    decreases n
  {
    if n > 0 {
      ShrinkTimesWellFormed(p, n - 1);
    }
  }
}
