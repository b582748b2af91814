/**
  The game: lives, the paddle, the ball and the table of every brick created,
  keyed by canvas item id, with the rules of one frame of the timer loop.

  The canvas is abstracted away: the ids of the items that overlap the ball
  in a frame are an input, and only the items of the game's own table (the
  paddle and the bricks) take part in a collision.
 */
module BrickBreaker {
  import opened Geometry
  import Paddles
  import Balls
  import Bricks
  import Grid

  type ItemId = Grid.ItemId

  const InitialLives: int := 3
  const CanvasWidth: int := 610
  /** The bottom edge: a ball reaching it costs a life. */
  const CanvasHeight: real := 400.0
  const PaddleY: real := 350.0
  /** Height of the centre of a ball placed on the paddle. */
  const BallY: real := 340.0
  /** The paddle is the first item created on the canvas. */
  const PaddleId: ItemId := 1

  datatype Game = Game(
    lives: int,
    paddleId: ItemId,
    paddle: Paddles.Paddle,
    bricks: map<ItemId, Bricks.Brick>,
    ball: Balls.Ball)

  /** How a frame ends: every brick gone, a life lost (the ball is respawned
      later), the last life lost, or play goes on with the next frame. */
  datatype Outcome = Win | LifeLost | GameOver | Continue

  datatype Step = Step(game: Game, outcome: Outcome)

  /** A game object an overlapping canvas item stands for. */
  datatype Item = PaddleItem | BrickItem(id: ItemId)

  /** What every reachable game state satisfies: the paddle's id is not a
      brick's, the paddle keeps its shape and has lost 10 of width for each
      life lost (down to the floor of 40), every brick is on the canvas exactly
      while it has hits left, and the ball flies in one of its possible
      directions at a positive speed. */
  predicate Valid(g: Game)
  {
    && g.paddleId !in g.bricks
    && Paddles.WellFormed(g.paddle)
    && g.lives <= InitialLives
    && g.paddle.width == Paddles.Max(Paddles.MinWidth, Paddles.InitialWidth - Paddles.ShrinkStep * (InitialLives - g.lives))
    && (forall id :: id in g.bricks ==> Bricks.Consistent(g.bricks[id]))
    && Balls.ValidDirection(g.ball.dir)
    && g.ball.speed > 0.0
  }

  /** The ids of the bricks still on the canvas: the ones the win test counts. */
  function LiveBricks(g: Game): set<ItemId>
  {
    set id | id in g.bricks && g.bricks[id].onCanvas
  }

  /** Whether an item belongs to the game's table. */
  predicate Known(g: Game, it: Item)
  {
    it.BrickItem? ==> it.id in g.bricks
  }

  /** The game objects of the overlapping item ids, in order: ids the game
      does not know (the ball itself, texts) are dropped. */
  function Items(g: Game, overlaps: seq<ItemId>): (objs: seq<Item>)
    ensures |objs| <= |overlaps|
    ensures forall it :: it in objs ==> Known(g, it)
    decreases |overlaps|
  {
    if overlaps == [] then []
    else
      var id := overlaps[0];
      var rest := Items(g, overlaps[1..]);
      if id == g.paddleId then [PaddleItem] + rest
      else if id in g.bricks then [BrickItem(id)] + rest
      else rest
  }

  /** How often an object should appear among the colliding ones: once per
      occurrence of its id among the overlapping ids, and never for a brick
      the table does not hold (or whose id is the paddle's). */
  function Occurrences(g: Game, overlaps: seq<ItemId>, it: Item): nat
  {
    match it
    case PaddleItem => multiset(overlaps)[g.paddleId]
    case BrickItem(id) => if id in g.bricks && id != g.paddleId then multiset(overlaps)[id] else 0
  }

  /** Each object appears among the colliding objects exactly as often as
      its id appears among the overlapping ids. */
  lemma {:induction false} ItemsCount(g: Game, overlaps: seq<ItemId>, it: Item)
    ensures multiset(Items(g, overlaps))[it] == Occurrences(g, overlaps, it)
    decreases |overlaps|
  {
    if overlaps != [] {
      assert overlaps == [overlaps[0]] + overlaps[1..];
      ItemsCount(g, overlaps[1..], it);
    }
  }

  lemma ItemsCounts(g: Game, overlaps: seq<ItemId>)
    ensures forall it :: multiset(Items(g, overlaps))[it] == Occurrences(g, overlaps, it)
  {
    forall it
      ensures multiset(Items(g, overlaps))[it] == Occurrences(g, overlaps, it)
    {
      ItemsCount(g, overlaps, it);
    }
  }

  /** When none of the overlapping ids is the paddle's or a brick's, there is
      no colliding object. */
  lemma {:induction false} ItemsOfStrangers(g: Game, overlaps: seq<ItemId>)
    ensures (forall id :: id in overlaps ==> id != g.paddleId && id !in g.bricks) ==> Items(g, overlaps) == []
    decreases |overlaps|
  {
    if overlaps != [] {
      assert overlaps[0] in overlaps;
      assert forall id :: id in overlaps[1..] ==> id in overlaps;
      ItemsOfStrangers(g, overlaps[1..]);
    }
  }

  function RectOf(g: Game, it: Item): Rect
    requires Known(g, it)
  {
    match it
    case PaddleItem => g.paddle.pos
    case BrickItem(id) => g.bricks[id].pos
  }

  /** The boxes of the colliding objects, in order. */
  function Rects(g: Game, objs: seq<Item>): (rs: seq<Rect>)
    requires forall it :: it in objs ==> Known(g, it)
    ensures |rs| == |objs|
  {
    seq(|objs|, i requires 0 <= i < |objs| => RectOf(g, objs[i]))
  }

  /** Every brick among the colliding objects takes one hit per occurrence,
      in order; the paddle takes none. */
  function HitAll(bricks: map<ItemId, Bricks.Brick>, objs: seq<Item>): (r: map<ItemId, Bricks.Brick>)
    requires forall it :: it in objs && it.BrickItem? ==> it.id in bricks
    ensures r.Keys == bricks.Keys
    ensures forall id :: id in bricks ==> r[id] == Bricks.HitTimes(bricks[id], multiset(objs)[BrickItem(id)])
    decreases |objs|
  {
    if objs == [] then bricks
    else
      var prefix := objs[..|objs| - 1];
      var last := objs[|objs| - 1];
      assert objs == prefix + [last];
      var before := HitAll(bricks, prefix);
      match last
      case PaddleItem => before
      case BrickItem(id) => before[id := Bricks.Hit(before[id])]
  }

  /** The collision step of a frame: the ball's direction reacts to the
      overlapping objects, then every overlapping brick takes a hit. The
      paddle, the lives and the ball's position are untouched. */
  function CheckCollisions(g: Game, overlaps: seq<ItemId>): (r: Game)
    ensures r.lives == g.lives && r.paddleId == g.paddleId && r.paddle == g.paddle
    ensures r.ball.pos == g.ball.pos && r.ball.speed == g.ball.speed
    ensures r.bricks.Keys == g.bricks.Keys
    ensures forall id :: id in g.bricks ==>
              r.bricks[id] == Bricks.HitTimes(g.bricks[id], if id == g.paddleId then 0 else multiset(overlaps)[id])
    ensures (forall id :: id in overlaps ==> id != g.paddleId && id !in g.bricks) ==> r == g
    ensures r.ball.dir == Balls.Collide(g.ball, Rects(g, Items(g, overlaps))).dir
    ensures Balls.ValidDirection(g.ball.dir) ==> Balls.ValidDirection(r.ball.dir)
  {
    var objs := Items(g, overlaps);
    ItemsCounts(g, overlaps);
    ItemsOfStrangers(g, overlaps);
    g.(ball := Balls.Collide(g.ball, Rects(g, objs)), bricks := HitAll(g.bricks, objs))
  }

  /** After the collision step every brick keeps the invariant "on the canvas
      exactly while it has hits left", and none comes back to the canvas. */
  lemma CollisionBricks(g: Game, overlaps: seq<ItemId>)
    requires forall id :: id in g.bricks ==> Bricks.Consistent(g.bricks[id])
    ensures var r := CheckCollisions(g, overlaps);
      forall id :: id in r.bricks ==>
        Bricks.Consistent(r.bricks[id]) && (r.bricks[id].onCanvas ==> g.bricks[id].onCanvas)
  {
    var r := CheckCollisions(g, overlaps);
    forall id | id in r.bricks
      ensures Bricks.Consistent(r.bricks[id]) && (r.bricks[id].onCanvas ==> g.bricks[id].onCanvas)
    {
      var k := if id == g.paddleId then 0 else multiset(overlaps)[id];
      assert r.bricks[id] == Bricks.HitTimes(g.bricks[id], k);
      Bricks.HitTimesConsistent(g.bricks[id], k);
    }
  }

  /** A game that differs from a valid one only in the ball's direction,
      kept valid, and in bricks that each stay consistent and none of which
      returns to the canvas, is valid and has no more live bricks. */
  lemma ValidAfterHits(g: Game, r: Game)
    requires Valid(g)
    requires r.lives == g.lives && r.paddleId == g.paddleId && r.paddle == g.paddle
    requires Balls.ValidDirection(r.ball.dir) && r.ball.speed == g.ball.speed
    requires r.bricks.Keys == g.bricks.Keys
    requires forall id :: id in r.bricks ==>
               Bricks.Consistent(r.bricks[id]) && (r.bricks[id].onCanvas ==> g.bricks[id].onCanvas)
    ensures Valid(r) && LiveBricks(r) <= LiveBricks(g)
  {
    forall id | id in LiveBricks(r)
      ensures id in LiveBricks(g)
    {
      assert r.bricks[id].onCanvas;
    }
  }

  /** The collision step keeps a valid game valid and never puts a brick back
      on the canvas. */
  lemma CheckCollisionsValid(g: Game, overlaps: seq<ItemId>)
    requires Valid(g)
    ensures Valid(CheckCollisions(g, overlaps))
    ensures LiveBricks(CheckCollisions(g, overlaps)) <= LiveBricks(g)
  {
    CollisionBricks(g, overlaps);
    ValidAfterHits(g, CheckCollisions(g, overlaps));
  }

  /** The ids the canvas reports are distinct. */
  predicate Distinct(s: seq<ItemId>)
  {
    forall i, j :: 0 <= i < j < |s| ==> s[i] != s[j]
  }

  lemma {:induction false} DistinctCount(s: seq<ItemId>, x: ItemId)
    requires Distinct(s)
    ensures multiset(s)[x] == if x in s then 1 else 0
    decreases |s|
  {
    if s != [] {
      assert s == [s[0]] + s[1..];
      DistinctCount(s[1..], x);
    }
  }

  /** With distinct overlap ids, every brick among them takes exactly one hit
      and every other brick none; the paddle is not hit. */
  lemma EachOverlappingBrickHitOnce(g: Game, overlaps: seq<ItemId>)
    requires g.paddleId !in g.bricks
    requires Distinct(overlaps)
    ensures CheckCollisions(g, overlaps).paddle == g.paddle
    ensures forall id :: id in g.bricks ==>
              CheckCollisions(g, overlaps).bricks[id] == if id in overlaps then Bricks.Hit(g.bricks[id]) else g.bricks[id]
  {
    forall id | id in g.bricks
      ensures CheckCollisions(g, overlaps).bricks[id] == if id in overlaps then Bricks.Hit(g.bricks[id]) else g.bricks[id]
    {
      DistinctCount(overlaps, id);
    }
  }

  /** The rest of a frame once collisions are handled in `c`: no brick left
      on the canvas wins, and this test comes first; otherwise a ball whose
      bottom reached the canvas bottom costs a life and shrinks the paddle,
      ending the game when no life is left; otherwise the ball flies one step
      on a canvas `canvasWidth` wide and play continues. */
  function EndFrame(c: Game, canvasWidth: real): (s: Step)
    ensures s.outcome == Win <==> LiveBricks(c) == {}
    ensures s.outcome == Win ==> s.game == c
    ensures s.outcome in {LifeLost, GameOver} <==> LiveBricks(c) != {} && c.ball.pos.y1 >= CanvasHeight
    ensures s.outcome == GameOver <==> LiveBricks(c) != {} && c.ball.pos.y1 >= CanvasHeight && c.lives <= 1
    ensures s.outcome in {LifeLost, GameOver} ==>
              s.game == c.(lives := c.lives - 1, paddle := Paddles.Shrink(c.paddle))
    ensures s.outcome == Continue ==> s.game == c.(ball := Balls.Update(c.ball, canvasWidth))
  {
    if |LiveBricks(c)| == 0 then
      Step(c, Win)
    else if c.ball.pos.y1 >= CanvasHeight then
      var lost := c.(lives := c.lives - 1, paddle := Paddles.Shrink(c.paddle));
      Step(lost, if lost.lives <= 0 then GameOver else LifeLost)
    else
      Step(c.(ball := Balls.Update(c.ball, canvasWidth)), Continue)
  }

  /** The end of a frame keeps a valid game valid, costs a life exactly on a
      fall, and leaves the bricks alone. */
  lemma EndFrameValid(c: Game, canvasWidth: real)
    requires Valid(c)
    ensures var s := EndFrame(c, canvasWidth);
      && Valid(s.game)
      && s.game.lives == (if s.outcome in {LifeLost, GameOver} then c.lives - 1 else c.lives)
      && s.game.bricks == c.bricks
  {
  }

  /** One frame of the timer loop: the collision step, then the end of the
      frame on its result. */
  function GameLoop(g: Game, overlaps: seq<ItemId>, canvasWidth: real): (s: Step)
    ensures var c := CheckCollisions(g, overlaps);
      && (s.outcome == Win <==> LiveBricks(c) == {})
      && (s.outcome == Win ==> s.game == c)
      && (s.outcome in {LifeLost, GameOver} <==> LiveBricks(c) != {} && g.ball.pos.y1 >= CanvasHeight)
      && (s.outcome == GameOver <==> LiveBricks(c) != {} && g.ball.pos.y1 >= CanvasHeight && g.lives <= 1)
      && (s.outcome in {LifeLost, GameOver} ==>
            s.game == c.(lives := g.lives - 1, paddle := Paddles.Shrink(g.paddle)))
      && (s.outcome == Continue ==> s.game == c.(ball := Balls.Update(c.ball, canvasWidth)))
  {
    EndFrame(CheckCollisions(g, overlaps), canvasWidth)
  }

  /** A frame keeps a valid game valid, costs at most one life and only on a
      fall, and never brings a brick back. */
  lemma GameLoopValid(g: Game, overlaps: seq<ItemId>, canvasWidth: real)
    requires Valid(g)
    ensures var s := GameLoop(g, overlaps, canvasWidth);
      && Valid(s.game)
      && s.game.lives == (if s.outcome in {LifeLost, GameOver} then g.lives - 1 else g.lives)
      && LiveBricks(s.game) <= LiveBricks(g)
  {
    var c := CheckCollisions(g, overlaps);
    CheckCollisionsValid(g, overlaps);
    EndFrameValid(c, canvasWidth);
    assert LiveBricks(EndFrame(c, canvasWidth).game) == LiveBricks(c);
  }

  /** A frame in which the ball touches nothing of the game, with bricks left
      and the ball above the bottom, is one step of flight. */
  lemma NoContactFrame(g: Game, overlaps: seq<ItemId>, canvasWidth: real)
    requires forall id :: id in overlaps ==> id != g.paddleId && id !in g.bricks
    requires LiveBricks(g) != {} && g.ball.pos.y1 < CanvasHeight
    ensures GameLoop(g, overlaps, canvasWidth) == Step(g.(ball := Balls.Update(g.ball, canvasWidth)), Continue)
  {
  }

  /** A valid game with one life left ends on its next fall unless that
      frame is won; with more lives, such a fall is only a lost life. */
  lemma FallOutcome(g: Game, overlaps: seq<ItemId>, canvasWidth: real)
    requires Valid(g) && g.lives >= 1 && g.ball.pos.y1 >= CanvasHeight
    ensures var s := GameLoop(g, overlaps, canvasWidth);
      s.outcome != Win ==>
        s.outcome == (if g.lives == 1 then GameOver else LifeLost) && s.game.lives == g.lives - 1
  {
  }

  /** The arrow keys: the paddle moves by `offset` when it stays on a canvas
      `canvasWidth` wide, carrying the ball along when it holds one. */
  function MovePaddle(g: Game, offset: real, canvasWidth: real): (r: Game)
    ensures r.paddle == Paddles.Move(g.paddle, offset, canvasWidth)
    ensures Paddles.Accepts(g.paddle, offset, canvasWidth) && g.paddle.holdsBall ==>
              r.ball == g.ball.(pos := Translate(g.ball.pos, offset, 0.0))
    ensures !(Paddles.Accepts(g.paddle, offset, canvasWidth) && g.paddle.holdsBall) ==> r.ball == g.ball
    ensures r.lives == g.lives && r.paddleId == g.paddleId && r.bricks == g.bricks
    ensures Valid(g) ==> Valid(r)
  {
    var p := Paddles.Move(g.paddle, offset, canvasWidth);
    if Paddles.Accepts(g.paddle, offset, canvasWidth) && g.paddle.holdsBall then
      g.(paddle := p, ball := g.ball.(pos := Translate(g.ball.pos, offset, 0.0)))
    else
      g.(paddle := p)
  }

  /** A ball held on the paddle keeps its horizontal place relative to the
      paddle through any key press, and a paddle move keeps a game valid. */
  lemma HeldBallFollowsPaddle(g: Game, offset: real, canvasWidth: real)
    requires g.paddle.holdsBall
    ensures var r := MovePaddle(g, offset, canvasWidth);
      CenterX(r.ball.pos) - CenterX(r.paddle.pos) == CenterX(g.ball.pos) - CenterX(g.paddle.pos)
    ensures Valid(g) ==> Valid(MovePaddle(g, offset, canvasWidth))
  {
  }

  /** A free ball (after the start key) is left where it is by a key press. */
  lemma FreeBallStays(g: Game, offset: real, canvasWidth: real)
    requires !g.paddle.holdsBall
    ensures MovePaddle(g, offset, canvasWidth).ball == g.ball
  {
  }

  /** A new ball on the paddle: centred above the paddle's centre at
      y = 340, heading up with horizontal component `dx`. */
  function LaunchBall(paddle: Paddles.Paddle, dx: int): (b: Balls.Ball)
    requires Balls.LaunchDx(dx)
    ensures CenterX(b.pos) == CenterX(paddle.pos) && CenterY(b.pos) == BallY
    ensures b.pos.x1 - b.pos.x0 == 2.0 * Balls.Radius && b.pos.y1 - b.pos.y0 == 2.0 * Balls.Radius
    ensures Balls.ValidDirection(b.dir) && b.dir.dx == dx && b.dir.dy < 0
    ensures b.speed == Balls.InitialSpeed
  {
    Balls.New(CenterX(paddle.pos), BallY, dx)
  }

  /** Setting up a round: the old ball is replaced by a new one resting on
      the paddle. */
  function AddBall(g: Game, dx: int): (r: Game)
    requires Balls.LaunchDx(dx)
    ensures r.ball == LaunchBall(g.paddle, dx)
    ensures r.paddle.holdsBall && r.paddle.pos == g.paddle.pos && r.paddle.width == g.paddle.width
    ensures r.lives == g.lives && r.bricks == g.bricks && r.paddleId == g.paddleId
    ensures Valid(g) ==> Valid(r)
  {
    g.(ball := LaunchBall(g.paddle, dx), paddle := g.paddle.(holdsBall := true))
  }

  /** The paddle lets go of the ball; nothing else changes. */
  function Release(g: Game): (r: Game)
    ensures !r.paddle.holdsBall
    ensures r.paddle.pos == g.paddle.pos && r.paddle.width == g.paddle.width
    ensures r.ball == g.ball && r.bricks == g.bricks && r.lives == g.lives && r.paddleId == g.paddleId
    ensures Valid(g) ==> Valid(r)
  {
    g.(paddle := g.paddle.(holdsBall := false))
  }

  /** The start key: the paddle lets go of the ball and one frame runs at
      once. Whether the paddle holds the ball plays no part in a frame, so
      this is the frame of the unreleased game followed by the release. */
  function StartGame(g: Game, overlaps: seq<ItemId>, canvasWidth: real): (s: Step)
    ensures !s.game.paddle.holdsBall
    ensures s.outcome == GameLoop(g, overlaps, canvasWidth).outcome
    ensures s.game == Release(GameLoop(g, overlaps, canvasWidth).game)
    ensures Valid(g) ==> Valid(s.game)
  {
    FrameIgnoresHold(g, overlaps, canvasWidth);
    GameLoop(Release(g), overlaps, canvasWidth)
  }

  /** The canvas reports the same colliding objects whether or not the paddle
      holds the ball. */
  lemma {:induction false} ItemsOfRelease(g: Game, overlaps: seq<ItemId>)
    ensures Items(Release(g), overlaps) == Items(g, overlaps)
    decreases |overlaps|
  {
    if overlaps != [] {
      ItemsOfRelease(g, overlaps[1..]);
    }
  }

  /** The collision step commutes with letting go of the ball. */
  lemma CollisionsIgnoreHold(g: Game, overlaps: seq<ItemId>)
    ensures CheckCollisions(Release(g), overlaps) == Release(CheckCollisions(g, overlaps))
  {
    var objs := Items(g, overlaps);
    ItemsOfRelease(g, overlaps);
    assert Rects(Release(g), objs) == Rects(g, objs);
  }

  /** The end of a frame commutes with letting go of the ball. */
  lemma EndFrameIgnoresHold(c: Game, canvasWidth: real)
    ensures var s := EndFrame(c, canvasWidth);
      EndFrame(Release(c), canvasWidth) == Step(Release(s.game), s.outcome)
  {
    assert LiveBricks(Release(c)) == LiveBricks(c);
    assert Paddles.Shrink(Release(c).paddle) == Paddles.Shrink(c.paddle).(holdsBall := false);
  }

  /** A frame run on the released game is the frame of the holding game,
      released afterwards; validity carries over. */
  lemma FrameIgnoresHold(g: Game, overlaps: seq<ItemId>, canvasWidth: real)
    ensures var s := GameLoop(g, overlaps, canvasWidth);
      GameLoop(Release(g), overlaps, canvasWidth) == Step(Release(s.game), s.outcome)
    ensures Valid(g) ==> Valid(GameLoop(Release(g), overlaps, canvasWidth).game)
  {
    CollisionsIgnoreHold(g, overlaps);
    EndFrameIgnoresHold(CheckCollisions(g, overlaps), canvasWidth);
    if Valid(g) {
      GameLoopValid(g, overlaps, canvasWidth);
    }
  }

  /** A new game: three lives, the paddle centred on the 610-pixel canvas at
      y = 350, the two-row wall of 16 bricks under item ids 2 to 17, and a new
      ball resting on the paddle with horizontal component `dx`. */
  method NewGame(dx: int) returns (g: Game)
    requires Balls.LaunchDx(dx)
    ensures Valid(g) && g.lives == InitialLives
    ensures g.paddleId == PaddleId && g.paddle.width == Paddles.InitialWidth
    ensures CenterX(g.paddle.pos) == CanvasWidth as real / 2.0
    ensures CenterY(g.paddle.pos) == PaddleY && g.paddle.pos.y1 - g.paddle.pos.y0 == Paddles.Height
    ensures g.bricks == Grid.Layout(Grid.Columns(CanvasWidth), PaddleId + 1)
    ensures forall id :: id in g.bricks <==> PaddleId + 1 <= id < PaddleId + 17
    ensures LiveBricks(g) == g.bricks.Keys
    ensures g.paddle.holdsBall && g.ball == LaunchBall(g.paddle, dx)
  {
    var paddle := Paddles.New(CanvasWidth as real / 2.0, PaddleY);
    var bricks, _ := Grid.Build(CanvasWidth, PaddleId + 1);
    g := Game(InitialLives, PaddleId, paddle.(holdsBall := true), bricks, LaunchBall(paddle, dx));
    forall id
      ensures id in g.bricks <==> PaddleId + 1 <= id < PaddleId + 17
      ensures id in g.bricks ==> g.bricks[id].onCanvas && Bricks.Consistent(g.bricks[id])
    {
      Grid.GameWall(PaddleId + 1, id);
    }
  }
}
