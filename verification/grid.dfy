/**
  The brick wall laid out when a game is created: one column every 75 pixels
  from x = 5 while x is below the canvas width minus 5, each column holding a
  two-hit brick at y = 50 and a one-hit brick below it at y = 100, both
  centred 37.5 right of the column's x.

  Canvas item ids are handed out in creation order, one per item, so the two
  bricks of column k get ids `firstId + 2k` and `firstId + 2k + 1`.
 */
module Grid {
  import opened Geometry
  import Bricks

  type ItemId = int

  const ColumnStart: int := 5
  const ColumnStep: int := 75
  /** Columns stop this far before the right edge of the canvas. */
  const RightMargin: int := 5
  const CentreOffset: real := 37.5
  const TopRowY: real := 50.0
  const TopRowHits: int := 2
  const SecondRowY: real := 100.0
  const SecondRowHits: int := 1

  /** Python's `range(start, stop, step)` for a positive step. */
  function Range(start: int, stop: int, step: int): (xs: seq<int>)
    requires step > 0
    ensures forall i :: 0 <= i < |xs| ==> xs[i] == start + i * step && xs[i] < stop
    ensures start + |xs| * step >= stop
    decreases stop - start
  {
    if start >= stop then [] else [start] + Range(start + step, stop, step)
  }

  /** The x of every brick column on a canvas `canvasWidth` wide. */
  function Columns(canvasWidth: int): seq<int>
  {
    Range(ColumnStart, canvasWidth - RightMargin, ColumnStep)
  }

  /** The brick of a column: row 0 is the top row, row 1 the one below. */
  function GridBrick(x: int, row: int): Bricks.Brick
  {
    if row == 0 then Bricks.New(x as real + CentreOffset, TopRowY, TopRowHits)
    else Bricks.New(x as real + CentreOffset, SecondRowY, SecondRowHits)
  }

  /** The wall for columns `xs`, written by item id: the reference the
      construction loop is checked against. */
  function Layout(xs: seq<int>, firstId: ItemId): map<ItemId, Bricks.Brick>
  {
    map i | firstId <= i < firstId + 2 * |xs| :: Slot(xs, firstId, i)
  }

  /** The brick under item id `i`: column `(i - firstId) / 2`, row
      `(i - firstId) % 2`. */
  function Slot(xs: seq<int>, firstId: ItemId, i: ItemId): Bricks.Brick
    requires firstId <= i < firstId + 2 * |xs|
  {
    GridBrick(xs[(i - firstId) / 2], (i - firstId) % 2)
  }

  /** Adding column k, at `x`, to the wall of the first k columns adds exactly
      its two bricks, under the next two item ids. */
  lemma LayoutExtend(xs: seq<int>, k: nat, firstId: ItemId, x: int, nextId: ItemId)
    requires k < |xs| && xs[k] == x && nextId == firstId + 2 * k
    ensures Layout(xs[..k + 1], firstId)
            == Layout(xs[..k], firstId)[nextId := GridBrick(x, 0)][nextId + 1 := GridBrick(x, 1)]
  {
    var big := Layout(xs[..k + 1], firstId);
    var small := Layout(xs[..k], firstId)[nextId := GridBrick(x, 0)][nextId + 1 := GridBrick(x, 1)];
    assert big.Keys == small.Keys;
    forall i | i in big.Keys
      ensures big[i] == small[i]
    {
      var c := (i - firstId) / 2;
      if c < k {
        assert xs[..k + 1][c] == xs[..k][c];
      }
    }
  }

  /** The construction loop of the game: for each column x of
      `range(5, canvasWidth - 5, 75)` it adds the top brick and then the
      second-row brick, each under the next free item id. */
  method Build(canvasWidth: int, firstId: ItemId) returns (bricks: map<ItemId, Bricks.Brick>, nextId: ItemId)
    ensures bricks == Layout(Columns(canvasWidth), firstId)
    ensures nextId == firstId + 2 * |Columns(canvasWidth)|
  {
    ghost var xs := Columns(canvasWidth);
    ghost var k := 0;
    bricks := map[];
    nextId := firstId;
    var x := ColumnStart;
    while x < canvasWidth - RightMargin
      invariant 0 <= k <= |xs|
      invariant Range(x, canvasWidth - RightMargin, ColumnStep) == xs[k..]
      invariant nextId == firstId + 2 * k
      invariant bricks == Layout(xs[..k], firstId)
      decreases canvasWidth - RightMargin - x
    {
      RangeStep(x, canvasWidth - RightMargin, xs, k);
      LayoutExtend(xs, k, firstId, x, nextId);
      bricks := bricks[nextId := GridBrick(x, 0)][nextId + 1 := GridBrick(x, 1)];
      nextId := nextId + 2;
      x := x + ColumnStep;
      k := k + 1;
    }
    assert xs[k..] == [];
    assert xs[..k] == xs;
  }

  /** One more turn of the column loop: the column at `x` is the k-th one,
      and the remaining ones start 75 further right. */
  lemma RangeStep(x: int, stop: int, xs: seq<int>, k: nat)
    requires x < stop && k <= |xs|
    requires Range(x, stop, ColumnStep) == xs[k..]
    ensures k < |xs| && xs[k] == x
    ensures Range(x + ColumnStep, stop, ColumnStep) == xs[k + 1..]
  {
    assert xs[k..] == [x] + Range(x + ColumnStep, stop, ColumnStep);
    assert xs[k + 1..] == xs[k..][1..];
  }

  /** The game's 610-pixel canvas gets eight columns, at x = 5, 80, ..., 530. */
  lemma ColumnsOfGameCanvas()
    ensures Columns(610) == [5, 80, 155, 230, 305, 380, 455, 530]
  {
    assert Range(605, 605, 75) == [];
    assert Range(530, 605, 75) == [530];
    assert Range(455, 605, 75) == [455, 530];
    assert Range(380, 605, 75) == [380, 455, 530];
    assert Range(305, 605, 75) == [305, 380, 455, 530];
    assert Range(230, 605, 75) == [230, 305, 380, 455, 530];
    assert Range(155, 605, 75) == [155, 230, 305, 380, 455, 530];
    assert Range(80, 605, 75) == [80, 155, 230, 305, 380, 455, 530];
  }

  /** On the game's canvas the wall has 16 bricks under ids `firstId` to
      `firstId + 15`; every even offset is a two-hit brick of the top row at
      y = 50, every odd one a one-hit brick at y = 100, and all are on the
      canvas. */
  lemma GameWall(firstId: ItemId, i: ItemId)
    ensures var w := Layout(Columns(610), firstId);
      && (i in w <==> firstId <= i < firstId + 16)
      && (i in w ==> w[i].onCanvas && Bricks.Consistent(w[i]))
      && (i in w && (i - firstId) % 2 == 0 ==> w[i].hits == 2 && CenterY(w[i].pos) == 50.0)
      && (i in w && (i - firstId) % 2 == 1 ==> w[i].hits == 1 && CenterY(w[i].pos) == 100.0)
      && (i in w ==> CenterX(w[i].pos) == (5 + 75 * ((i - firstId) / 2)) as real + 37.5)
  {
    ColumnsOfGameCanvas();
    var xs := Columns(610);
    var w := Layout(xs, firstId);
    if firstId <= i < firstId + 16 {
      var c := (i - firstId) / 2;
      assert xs[c] == 5 + 75 * c;
      assert w[i] == GridBrick(xs[c], (i - firstId) % 2);
    }
  }
}
