/**
  Canvas geometry. Every canvas item of the game is an axis-aligned box
  `(x0, y0, x1, y1)`, the four numbers the canvas reports for it; coordinates
  are reals because the bricks sit at half-pixel offsets.
 */
module Geometry {

  datatype Rect = Rect(x0: real, y0: real, x1: real, y1: real)

  /** The box the canvas creates for an item centred at (x, y) with the given
      half-width and half-height. */
  function Centered(x: real, y: real, halfWidth: real, halfHeight: real): (r: Rect)
    ensures CenterX(r) == x && CenterY(r) == y
    ensures r.x1 - r.x0 == 2.0 * halfWidth && r.y1 - r.y0 == 2.0 * halfHeight
  {
    Rect(x - halfWidth, y - halfHeight, x + halfWidth, y + halfHeight)
  }

  /** The canvas `move` of an item: both corners shift by (dx, dy). */
  function Translate(r: Rect, dx: real, dy: real): Rect
  {
    Rect(r.x0 + dx, r.y0 + dy, r.x1 + dx, r.y1 + dy)
  }

  /** Horizontal centre of a box. */
  function CenterX(r: Rect): real
  {
    (r.x0 + r.x1) * 0.5
  }

  /** Vertical centre of a box. */
  function CenterY(r: Rect): real
  {
    (r.y0 + r.y1) * 0.5
  }

  /** The box lies horizontally within `[0, width]`. */
  predicate InsideHorizontally(r: Rect, width: real)
  {
    0.0 <= r.x0 && r.x1 <= width
  }
}
