# Snake game engine, modelled in Dafny

This project models the simulation engine of a browser snake game (`src/App.tsx`).
A snake moves on a 20 × 20 board: the canvas is 1000 units wide at 50 units per cell.
Each tick of a 100 ms interval moves the head one cell in the current direction.
Reaching the apple adds one point, grows the body by one segment and respawns the apple at a random cell.
Leaving the board or running into the body ends the game and saves the high score.
Reaching the winning score (50 by default) wins the game.

Modules, one per component of the engine:

- `Options` (`options.dfy`): the optional value shared by the other modules.
- `Grid` (`grid.dfy`): the constants, integer points, the four unit directions and the bounds test.
- `Body` (`body.dfy`): the two ways a tick reshapes the body, `Move` (drop the tail) and `Grow` (keep it), and the lemmas that they keep the body on the board and free of overlaps.
- `Collision` (`collision.dfy`): the collision check, written as the source's two early-return loops, and its meaning as a pure predicate.
- `Steering` (`steering.dfy`): arrow keys to directions.
- `HighScore` (`high_score.dfy`): the stored high score as `Number(...)` reads it, and the save rule.
- `SnakeGame` (`game.dfy`): the class `Game` holding the component's state, with `Tick`, `Play`, `ChoosePlayer`, `ChangeDirection`, `AppleAte` and `SaveHighScore`.
- `Scenarios` (`scenarios.dfy`): example runs from a freshly mounted game.

The class invariant `Game.Valid` states what holds in every reachable state:

- the body has at least two segments;
- the apple is on the board;
- the direction is one of the four unit vectors;
- the winning score is positive.

While the clock runs, it also states:

- the game is neither lost nor won;
- the score is below the winning score;
- every segment is on the board;
- the body is free of overlaps, except before the first tick, when the two start segments share the cell (4, 10).

Behaviour that the model keeps because the code does it:

- The candidate head is tested against every pre-move segment, the tail included (`Collision.TailCellCollides`).
- Turning back onto the second segment is therefore fatal (`Scenarios.ReversalIsFatal`).
- A colliding tick does not return early. It still checks the apple and commits the new body, with its head possibly off the board.
- The high score is saved with the score from before the tick. On a colliding tick that also eats the apple, the saved value misses that last point.
- The win check follows the score. A colliding tick that eats the apple and reaches the winning score sets both `gameOver` and `wonGame`.
- The bounds loop runs once per body segment over the head's coordinates. Only indices 0 and 1 exist; every other index reads `undefined`, which fails both comparisons. So the loop tests both coordinates only because the body never has fewer than two segments (`Collision.WallHitIffOffGrid`, `Collision.OneSegmentSkipsY`).

Behaviour that differs from the usual expectation of the game:

- A stored high score that is not a number reads as NaN, not as 0. Every comparison with NaN is false, so such an entry is never replaced (`HighScore.SaveKeepsMaximum`).
- Segments are not distinct at the start (see above).
- A colliding tick still changes the body, score and apple (see above).

## Model

| member | source | states |
|---|---|---|
| Grid.NextHeadIsNeighbour | src/App.tsx:181-184 | with a unit direction, the candidate head is a different cell at most one step away along one axis |
| Body.Move | src/App.tsx:192-195 | a tick that does not eat keeps the length; the new head is first and every old segment but the tail shifts back one place, in order |
| Body.Grow | src/App.tsx:185 | a tick that eats adds one segment: the new head in front of the whole old body |
| Body.MoveTradesTailForHead | src/App.tsx:185-194 | as a multiset of cells, a move gains the head, loses the last segment, and nothing else |
| Body.MoveKeepsDistinct | src/App.tsx:180-195 | moving onto a cell outside the body keeps the segments pairwise distinct |
| Body.GrowKeepsDistinct | src/App.tsx:180-195 | growing onto a cell outside the body keeps the segments pairwise distinct |
| Body.StepKeepsInGrid | src/App.tsx:180-195 | moving or growing onto a board cell keeps every segment on the board |
| Collision.Coord | src/App.tsx:161 | the head has a coordinate exactly at indices 0 and 1; any other index is undefined |
| Collision.CheckCollision | src/App.tsx:159-167 | the two early-return loops report a collision iff some index below the body length has an out-of-bounds coordinate, or the head equals some pre-move segment |
| Collision.WallHitIffOffGrid | src/App.tsx:159-162 | with at least two segments, the scaled bounds test (`c < 0` or `c * 50 >= 1000` on x and on y) holds iff the head is off the 20 × 20 board |
| Collision.CollidesIff | src/App.tsx:159-166 | with at least two segments, a collision is exactly: head off the board, or head equal to some pre-move segment |
| Collision.TailCellCollides | src/App.tsx:163-165 | moving onto the last segment's cell is a collision, although that segment is about to leave it |
| Collision.OneSegmentSkipsY | src/App.tsx:160-161 | with a one-segment body the bounds loop would miss a head above the board |
| Steering.KeyDirection | src/App.tsx:197-211 | a key selects a direction iff it is one of the four arrow keys, and that direction is a unit vector |
| Steering.Steer | src/App.tsx:197-211 | an arrow key yields a unit direction, any other key leaves the direction unchanged, so the direction stays a unit vector |
| Steering.KeyDirectionInjective | src/App.tsx:197-211 | different arrow keys select different directions |
| Steering.EveryDirectionHasKey | src/App.tsx:197-211 | each of the four unit directions is selected by some arrow key |
| Steering.OppositeKeysReverse | src/App.tsx:199-209 | left and right, and up and down, select opposite vectors |
| HighScore.AsNumber | src/App.tsx:144 | reading the stored entry gives NaN exactly for a non-numeric entry; a missing entry reads as 0 and a numeric entry reads as its value |
| HighScore.SaveHighScore | src/App.tsx:143-146 | the entry is left alone or replaced by the score, never read lower than before, and when replaced it reads at least the score |
| HighScore.SaveKeepsMaximum | src/App.tsx:143-146 | for a readable entry and a non-negative score, after saving the entry reads the larger of the two; a NaN entry is never replaced |
| HighScore.SaveOverMissing | src/App.tsx:143-146 | with no stored entry, a positive score is written and a score of 0 leaves the entry missing |
| HighScore.SaveIdempotent | src/App.tsx:143-146 | saving the same score twice changes nothing the second time |
| SnakeGame.Game.Delay | src/App.tsx:78 | the interval delay is non-null exactly while the clock runs, and then it is the 100 ms tick period |
| SnakeGame.Game.constructor | src/App.tsx:75-82 | mount state: initial body and apple, heading up, score 0, clock stopped, not over, not won, player dialog open |
| SnakeGame.Game.Play | src/App.tsx:149-158 | restart: initial body [(4,10),(4,10)], apple (14,10), heading right, score 0, clock running with delay 100, not over, not won; store and dialog untouched |
| SnakeGame.Game.ChoosePlayer | src/App.tsx:86-90 | picking a player closes the dialog and restarts the game |
| SnakeGame.Game.ChangeDirection | src/App.tsx:197-211 | the direction becomes the arrow key's vector, or stays as it was for any other key |
| SnakeGame.Game.SaveHighScore | src/App.tsx:143-146 | the store entry follows the save rule, with the current score |
| SnakeGame.Game.AppleAte | src/App.tsx:168-177 | the head reached the apple iff the new head equals the apple; then the score rises by exactly one and the apple becomes the spawned cell, otherwise neither changes |
| SnakeGame.Game.Tick | src/App.tsx:179-196 | candidate head = old head + direction. Collision iff the head is off the board or on a pre-move segment; it stops the clock, sets game over, opens the dialog and saves the pre-tick score. The apple check and the body commit happen regardless. The score rises by 1 exactly when the apple is eaten. Win iff the score reaches the winning score, which also stops the clock. A stopped clock changes nothing. The invariant is kept |
| SnakeGame.TickKeepsBody | src/App.tsx:179-196 | a tick that leaves the clock running keeps the body on the board and free of overlaps, including the first tick from the duplicated start body |
| SnakeGame.FirstTickFromStart | src/App.tsx:33-37 | the first tick after a restart, in any direction, lands on the board, off the body, not on the apple, and leaves two distinct segments |
| Scenarios.FirstAppleOnTenthTick | src/App.tsx:149-196 | heading right from the start, the tenth tick eats the apple at (14,10): score 1, three segments, apple at the spawned cell |
| Scenarios.WallOnFifthTickLeft | src/App.tsx:179-196 | turning left at the start, the fifth tick leaves the board: lost, clock stopped, dialog open, store unchanged for score 0, head committed at (-1,10) |
| Scenarios.ReversalIsFatal | src/App.tsx:197-211 | turning back after one tick to the right is an immediate loss |
| Scenarios.WinAtThree | src/App.tsx:136-141 | with winning score 3, the third apple wins and stops the clock, and a later tick leaves the score at 3 |

## Left out

- Canvas drawing, the head image rotation table and image assets: graphics and floating-point trigonometry.
- The shuffled player list, the player picture and all dialogs' markup: cosmetic. Only the dialog's open flag is kept, because a collision sets it.
- The interval timer and React's batched, asynchronous state updates. A tick is one atomic step over the state as it stood when the tick began. The interval is a boolean `running`; `Game.Delay` reads it back as the interval's delay (100 ms or null). `Tick` does nothing while the clock is stopped.
- The win effect runs after a render in which the score changed. It is folded in at the end of `Tick`, guarded by "the score changed".
- The browser store. The high score is an abstract field `highScore` with three kinds of entry: missing, numeric (an integer), and non-numeric. Entries that `Number(...)` reads as a non-integer number are not modelled; the game writes only integers.
- Reading the winning score from the URL (`parseInt`, the fallback to 50). The winning score is a constructor parameter.
- SnakeGame.Game.constructor: requires a positive winning score. A URL value of 0 or below, which makes the effect declare a win at mount, is not modelled.
- `Math.random()` for the new apple: `Tick` takes the spawned cell as a parameter, required to lie on the board as `Math.floor(Math.random() * 1000 / 50)` guarantees for each coordinate.
- Keyboard events reach `changeDirection` only while the play area is shown (dialog closed, game not won). `ChangeDirection` models the handler itself, not that gating.
- Focusing the play area after a restart: UI only.
