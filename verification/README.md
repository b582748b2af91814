# Brick breaker game rules in Dafny

This project models the rule layer of a small brick-breaker arcade game
written in Python on a tkinter canvas. The game has a paddle moved by the
arrow keys, a bouncing ball, a wall of 16 bricks that take one or two hits,
and three lives. The canvas is replaced by plain state:

- each game object's box is a `Rect(x0, y0, x1, y1)` of reals (module `Geometry`);
- the canvas width the window reports is a parameter of the paddle move and of the ball's flight;
- the ids of the items overlapping the ball in a frame are an input sequence;
- one run of the timer callback is one call of `BrickBreaker.GameLoop`.

Modules follow the classes of the script:

- `Paddles` models `Paddle`: move within the canvas, shrink with a floor of 40.
- `Bricks` models `Brick`: hit counter and removal from the canvas.
- `Balls` models `Ball`: wall reflection and flight, and the collision direction rule.
- `Grid` models the brick wall laid out by `Game.__init__`.
- `BrickBreaker` models `Game`: the item table, the collision step, one frame with its outcome, the key-driven paddle move with the held ball, ball respawn, the start key, and a new game.

Two points about the canvas shape the model:

- Tk numbers canvas items from 1 in creation order. The paddle is item 1, and the bricks of column k are items `2 + 2k` (top row) and `3 + 2k` (second row).
- A brick whose counter runs out is deleted from the canvas but stays in the game's item table. `Bricks.Brick.onCanvas` records this. The win test counts only bricks still on the canvas (`BrickBreaker.LiveBricks`).

`BrickBreaker.Valid` is the invariant of every reachable game. A new game satisfies it, and the collision step, a frame, a paddle move, a respawn and the start key all preserve it. It says:

- the paddle's id is not a brick's;
- the paddle's box is exactly `width` wide;
- `width` is `max(40, 100 - 10 * lives lost)`;
- every brick is on the canvas exactly while its counter is positive;
- the ball's direction is one of `{-2, -1, 1, 2} x {-3, 3}`;
- the ball's speed is positive.

Only the paddle is kept within the canvas (`Paddles.MoveStaysInside`). The
ball leaves through the bottom, and that is how a life is lost.

## Model

| member | source | states |
|---|---|---|
| Geometry.Centered | ImplementasiOOPdiGui.py:24-104 | a box created around (x, y) is centred on (x, y) and is twice the half-extents wide and high |
| Paddles.New | ImplementasiOOPdiGui.py:63-71 | a new paddle is 100 wide and 10 high, centred on (x, y), well formed, holding no ball |
| Paddles.Move | ImplementasiOOPdiGui.py:76-80 | the paddle moves by exactly `offset` when `left + offset >= 0` and `right + offset <= width`; otherwise it is unchanged; width, vertical extent and held-ball flag never change |
| Paddles.MoveStaysInside | ImplementasiOOPdiGui.py:76-80 | a paddle inside `[0, width]` stays inside after any move |
| Paddles.MoveUndo | ImplementasiOOPdiGui.py:76-80 | from inside the canvas, an accepted move is undone by the opposite move, which is also accepted |
| Paddles.Shrink | ImplementasiOOPdiGui.py:84-90 | width drops by 10 exactly when it is above 40; the left edge and vertical extent are kept and the right edge becomes `left + width`; a well-formed paddle stays well formed and does not grow |
| Paddles.ShrinkTimesWidth | ImplementasiOOPdiGui.py:64-86 | from the initial width 100, after n shrinks the width is `max(40, 100 - 10n)`, never below 40 |
| Paddles.ShrinkTimesWellFormed | ImplementasiOOPdiGui.py:84-90 | any number of shrinks keeps a well-formed paddle well formed, with the same left edge and a right edge no further right |
| Bricks.New | ImplementasiOOPdiGui.py:96-105 | a new brick is a 70 by 20 box centred on (x, y), on the canvas, with the given hit count |
| Bricks.Hit | ImplementasiOOPdiGui.py:107-113 | a hit lowers the count by exactly one; a brick whose new count is at most 0 is off the canvas, otherwise its canvas presence is unchanged; the invariant "on canvas iff count > 0" is kept |
| Bricks.HitTimes | ImplementasiOOPdiGui.py:107-110 | after k > 0 hits the count is `hits - k` and the brick is on the canvas iff it was and the count is still positive |
| Bricks.HitTimesConsistent | ImplementasiOOPdiGui.py:107-110 | the invariant "on canvas iff count > 0" survives any number of hits |
| Bricks.NewBrickLifetime | ImplementasiOOPdiGui.py:96-110 | a brick created with h >= 1 hits is still on the canvas after k hits iff k < h |
| Bricks.TwoHitBrick | ImplementasiOOPdiGui.py:107-110 | a two-hit brick survives its first hit with one hit left and is removed by its second |
| Balls.New | ImplementasiOOPdiGui.py:20-28 | a new ball is a 20 by 20 box centred on (x, y), heading up with the chosen horizontal component, at speed 3 |
| Balls.Update | ImplementasiOOPdiGui.py:30-40 | horizontal direction flips iff the ball touches the left or right wall, vertical iff it touches the top (never the bottom); magnitudes are kept; the ball moves by the new direction times the speed; speed grows by 0.005 |
| Balls.LeftWallSendsRight | ImplementasiOOPdiGui.py:33-39 | a ball flying into the left wall is sent right and moves away from the wall in the same frame |
| Balls.CeilingSendsDown | ImplementasiOOPdiGui.py:35-39 | a ball flying into the ceiling is sent down and moves away from it in the same frame |
| Balls.Collide | ImplementasiOOPdiGui.py:42-55 | several objects flip only the vertical direction; one object sets horizontal +1 when the centre is right of it, -1 when left of it, else flips vertical; no object changes nothing; position and speed unchanged |
| Balls.SquareLandingBouncesUp | ImplementasiOOPdiGui.py:47-55 | a falling ball landing with its centre over a single object goes back up with the same horizontal direction |
| Balls.CollideChangesOneComponent | ImplementasiOOPdiGui.py:42-55 | a collision changes at most one component of the direction, by a flip or by setting a horizontal unit |
| Grid.Range | ImplementasiOOPdiGui.py:133 | element i of `range(start, stop, step)` is `start + i * step` and lies below `stop`, and the range stops only once the next element would reach `stop`, so none is missing |
| Grid.RangeStep | ImplementasiOOPdiGui.py:133 | one more turn of the column loop visits the next column and leaves the rest of the range |
| Grid.LayoutExtend | ImplementasiOOPdiGui.py:133-135 | adding column k adds exactly its top brick and its second-row brick under the next two item ids |
| Grid.Build | ImplementasiOOPdiGui.py:133-135 | the column loop produces exactly the reference wall, two bricks per column under consecutive item ids |
| Grid.ColumnsOfGameCanvas | ImplementasiOOPdiGui.py:120-133 | on the 610-pixel canvas the columns are x = 5, 80, ..., 530, eight of them |
| Grid.GameWall | ImplementasiOOPdiGui.py:133-135 | the game's wall has 16 bricks; the top row has 2 hits at y = 50, the second row 1 hit at y = 100, all centred 37.5 right of their column and on the canvas |
| BrickBreaker.Items | ImplementasiOOPdiGui.py:195-198 | the colliding objects are all objects of the game's table, and there are no more of them than overlapping ids |
| BrickBreaker.ItemsCount | ImplementasiOOPdiGui.py:198 | each object appears among the colliding objects exactly as often as its id appears among the overlapping ids; a brick the table does not hold never appears |
| BrickBreaker.ItemsCounts | ImplementasiOOPdiGui.py:198 | the counting property of `ItemsCount` holds for every object at once |
| BrickBreaker.ItemsOfStrangers | ImplementasiOOPdiGui.py:198 | when no overlapping id is the paddle's or a brick's, there are no colliding objects |
| BrickBreaker.HitAll | ImplementasiOOPdiGui.py:57-59 | every brick among the colliding objects takes one hit per occurrence; the paddle takes none; the table keeps its ids |
| BrickBreaker.CheckCollisions | ImplementasiOOPdiGui.py:195-199 | the ball's direction becomes what `Balls.Collide` makes of the boxes of the overlapping objects, in order; the overlapping bricks take one hit per occurrence; nothing else changes, and with no known item overlapping nothing changes at all |
| BrickBreaker.CollisionBricks | ImplementasiOOPdiGui.py:57-59 | after the collision step every brick is still on the canvas exactly while it has hits left, and none returns to the canvas |
| BrickBreaker.ValidAfterHits | ImplementasiOOPdiGui.py:42-59 | a change confined to a valid ball direction and to bricks that stay consistent and do not return keeps the invariant and does not add live bricks |
| BrickBreaker.CheckCollisionsValid | ImplementasiOOPdiGui.py:42-59 | the collision step keeps the game invariant and puts no brick back on the canvas |
| BrickBreaker.EachOverlappingBrickHitOnce | ImplementasiOOPdiGui.py:57-59 | with distinct overlap ids, each overlapping brick takes exactly one hit, every other brick none, and the paddle is untouched |
| BrickBreaker.EndFrame | ImplementasiOOPdiGui.py:181-193 | with no brick on the canvas the frame is a win, and this is checked first; otherwise a ball at the bottom costs exactly one life and shrinks the paddle, and it is game over iff the lives reach 0 or less; otherwise the ball flies one step and play continues |
| BrickBreaker.EndFrameValid | ImplementasiOOPdiGui.py:181-193 | the end of a frame keeps the game invariant, costs a life exactly on a lost-life or game-over outcome, and leaves the bricks alone |
| BrickBreaker.GameLoop | ImplementasiOOPdiGui.py:178-193 | after collisions: no brick on the canvas means a win, checked first; otherwise a ball at the bottom loses exactly one life and shrinks the paddle, and it is game over iff no life is left; otherwise the ball flies one step and play continues |
| BrickBreaker.GameLoopValid | ImplementasiOOPdiGui.py:178-193 | a frame keeps the game invariant, costs a life exactly on a lost-life or game-over outcome, and never brings a brick back |
| BrickBreaker.NoContactFrame | ImplementasiOOPdiGui.py:191-193 | a frame with no game object overlapping, bricks left and the ball above the bottom is exactly one step of flight |
| BrickBreaker.FallOutcome | ImplementasiOOPdiGui.py:184-190 | in a valid game, unless the frame is won, a fall with one life left is game over and with more lives it is a lost life; either way one life is lost |
| BrickBreaker.MovePaddle | ImplementasiOOPdiGui.py:76-82 | the paddle moves as `Paddles.Move`; the ball shifts by the same offset exactly when the move is accepted and the paddle holds it; nothing else changes; the invariant is kept |
| BrickBreaker.HeldBallFollowsPaddle | ImplementasiOOPdiGui.py:79-82 | a held ball keeps its horizontal place relative to the paddle through any key press, and the game invariant is kept |
| BrickBreaker.FreeBallStays | ImplementasiOOPdiGui.py:172-176 | once the start key has released the ball, paddle moves never move it |
| BrickBreaker.LaunchBall | ImplementasiOOPdiGui.py:149-154 | a respawned ball is a 20 by 20 box centred over the paddle's centre at y = 340, heading up, at the initial speed |
| BrickBreaker.AddBall | ImplementasiOOPdiGui.py:149-155 | respawning replaces the ball with one resting on the paddle and changes nothing else; the invariant is kept |
| BrickBreaker.Release | ImplementasiOOPdiGui.py:172-175 | the paddle lets go of the ball and nothing else changes; the invariant is kept |
| BrickBreaker.StartGame | ImplementasiOOPdiGui.py:172-176 | the start key releases the ball and runs one frame at once; the outcome is that of the same frame without the release, and the game is that frame's game with the ball released; the invariant is kept |
| BrickBreaker.ItemsOfRelease | ImplementasiOOPdiGui.py:195-198 | whether the paddle holds the ball does not change which objects collide |
| BrickBreaker.CollisionsIgnoreHold | ImplementasiOOPdiGui.py:195-199 | the collision step commutes with releasing the ball |
| BrickBreaker.EndFrameIgnoresHold | ImplementasiOOPdiGui.py:181-193 | the end of a frame commutes with releasing the ball |
| BrickBreaker.FrameIgnoresHold | ImplementasiOOPdiGui.py:176-193 | a frame commutes with releasing the ball, and a valid game stays valid through release and frame |
| BrickBreaker.NewGame | ImplementasiOOPdiGui.py:117-155 | a new game has 3 lives, a 100 by 10 paddle centred on the canvas at y = 350 as item 1, the 16-brick wall as items 2 to 17 all on the canvas, and a ball resting on the paddle; it satisfies the invariant |

## Left out

- Drawing is not modelled: colours, the random colour changes, texts, the lives display and the background flicker. They only affect what is shown.
- Timer scheduling and key bindings are not modelled. This covers the 50 ms and 1000 ms re-scheduling and the Left/Right/Space bindings. One frame is one call of `BrickBreaker.GameLoop`. A key press is `BrickBreaker.MovePaddle` with offset -15 or 15, or `BrickBreaker.StartGame`, which releases the ball and runs one frame.
- The canvas's overlap search is not modelled. The overlapping ids are an input, and the model does not require them to be items still on the canvas.
- The window's reported width is a parameter (`canvasWidth`), because it comes from the window system.
- The random launch direction is a parameter `dx` restricted to -2, -1, 1 or 2.
- Balls.Update: the speed gain of 0.005 per frame is added exactly in reals. The floating-point rounding of the Python game is not modelled.
- Geometry: the canvas's own rounding of coordinates is not modelled.
- Deleting an item a second time does nothing on the canvas. The model reflects this only through `onCanvas` staying false.
- The game stops scheduling frames after a win or game over. The model does not track this; it is the caller's choice not to call `GameLoop` again.
