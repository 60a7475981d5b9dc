# Snake game state, verified in Dafny

A model of the game-state core of a pygame Snake game (`the_snake.py`). The
board is a 640 x 480 screen cut into 20-pixel cells, 32 columns by 24 rows.
The snake is a head-first list of cells with a length to grow to, a heading and
an optional pending heading. Two foods lie on the board: the apple (worth one
cell of growth) and the melon (worth two). Each pass of the game loop:

1. handles the key presses of the poll, refusing a press that points backwards;
2. applies the pending heading;
3. puts a new head one cell ahead, wrapping around the screen's edges;
4. tests the apple, and only if it was not eaten the melon, growing the length
   and re-placing the eaten food on a cell outside the body and the other food;
5. drops at most one tail cell when the body is longer than the length;
6. restarts the snake at the centre, with length 1 and any heading, when the
   head lies on the rest of the body.

Files and modules:

- `grid.dfy`, module `Grid`: the constants, `Cell`, the headings `Dir`, the set
  of all cells `AllCells`, the wrap-around step `Step` and its properties.
- `keys.dfy`, module `Keys`: the key-to-heading decision (`Press`), its fold
  over a poll (`Pending`) and the no-reverse and last-press-wins lemmas.
- `food.dfy`, module `Food`: `PlaceFood`, a nondeterministic pick of a free cell.
- `snake.dfy`, module `SnakeGame`: the `Snake` class (fields `positions`,
  `length`, `direction`, `nextDirection`) with its methods, and the `Game`
  class holding the snake and the two food cells, with `Tick` and `Run`.
- `scenarios.dfy`, module `Scenarios`: games set up by hand (a self-collision
  restart, the apple winning a tie with the melon, a refused reverse press),
  whose outcomes follow from `Tick`'s contract alone.
- `wrappers.dfy`, module `Wrappers`: `Option`.

Behaviours of the code that the model keeps as written:

- The tail is trimmed by one `if ... pop()`, not a loop. A tick starts with
  1 <= body <= length and its move adds one head, so the single pop drops
  exactly what a loop would (`TickTrimAsLoop`). Because each move adds one
  head, the body gains at most one cell per tick. So when the body is full
  before a melon and nothing is eaten on the next tick, it is one cell short
  right after the melon and reaches the length one tick later
  (`MelonGrowsOverTwoTicks`).
- The two foods are first placed with the default argument `SCREEN_CENTER`.
  Turning that pair into a set gives `{320, 240}`, a set of numbers that holds
  no cell, so the first placements exclude nothing. The apple and the melon may
  start on the same cell, or on the snake's start cell.
- The snake's `position` field is never changed from the screen centre, so a
  restart always goes back to (320, 240).
- When a food must be placed and no cell is free, the random pick raises an
  error that ends the program. `Tick` then returns `NoFreeCell` and stops at
  that point: the length has grown, the food stays, and neither the trim nor
  the collision test runs.

## Model

| member | source | states |
|---|---|---|
| Grid.Opposite | the_snake.py:12-15 | the opposite heading's vector is the negation of the heading's, and differs from it |
| Grid.AllCellsExactly | the_snake.py:39-41 | a cell is on the board iff both coordinates are multiples of 20, 0 <= x < 640 and 0 <= y < 480 |
| Grid.AllCellsSize | the_snake.py:36-41 | the board has exactly 32 * 24 = 768 cells and contains the screen centre (320, 240) |
| Grid.Step | the_snake.py:112-115 | the new head's coordinates always lie inside the screen, as Python's non-negative % ensures |
| Grid.StepOnGrid | the_snake.py:112-115 | a step from a board cell lands on a board cell, in every heading |
| Grid.StepInverse | the_snake.py:112-115 | a step followed by a step in the opposite heading returns to the start cell |
| Grid.StepMoves | the_snake.py:112-115 | a step never leaves the head on the cell it came from |
| Grid.StepInjective | the_snake.py:112-115 | from one cell, two steps land on the same cell iff their headings are equal |
| Grid.WrapExamples | the_snake.py:112-115 | (620, y) right gives (0, y), (0, y) left gives (620, y), (x, 0) up gives (x, 460), (x, 460) down gives (x, 0) |
| Grid.StepsWrap | the_snake.py:109-116 | n moves in one heading add n * 20 * vector to the head, modulo the screen width and height |
| Grid.StepsRightFromCenter | the_snake.py:98-100 | from the start cell, heading right, the head after n moves is ((320 + 20 n) mod 640, 240) |
| Keys.Press | the_snake.py:151-158 | a press sets the pending heading to the key's heading iff it is an arrow key not opposite the current heading, and otherwise leaves it |
| Keys.PendingIgnoresRefused | the_snake.py:146-158 | a poll whose presses are all refused leaves the pending heading unchanged |
| Keys.PendingLastAccepted | the_snake.py:146-158 | the pending heading after a poll is that of the last accepted press, whatever came before it |
| Keys.PendingCases | the_snake.py:146-158 | after a poll the pending heading is the old one or that of some accepted press (the no-accepted-press case is `PendingIgnoresRefused`) |
| Keys.PendingNeverReverse | the_snake.py:151-158 | if the pending heading did not point backwards, no poll makes it point backwards |
| Keys.NextHeadingNotReverse | the_snake.py:173-174 | the heading a tick moves in is never the reverse of the heading before the tick |
| Keys.ReverseKeyIgnored | the_snake.py:151-158 | pressing only the reverse arrow leaves the heading unchanged after the update |
| Food.PlaceFood | the_snake.py:70-74 | with a non-empty free set, the picked cell is a board cell outside the occupied set |
| Food.DefaultPlacementExcludesNothing | the_snake.py:70-74 | with nothing excluded, every board cell may be picked and the start cell is allowed; that the default argument excludes nothing is the definition of `DefaultOccupied`, not a proved fact |
| Food.FreeCellExists | the_snake.py:182-187 | while the body has fewer than 767 cells, the placement of an eaten food has a free cell |
| SnakeGame.MovedOnGrid | the_snake.py:109-116 | a move keeps every cell of a board-valid body on the board |
| SnakeGame.TickBounds | the_snake.py:189-190 | if 1 <= body <= length before, the same holds after the move and trim of a tick; at most one tail cell goes and the rest keeps its order |
| SnakeGame.TickTrimAsLoop | the_snake.py:189-190 | when a tick starts with 1 <= body <= length, the single tail pop gives the same body as popping until the body fits the length |
| SnakeGame.MelonGrowsOverTwoTicks | the_snake.py:184-190 | from a full body, a melon leaves it one cell short of the length, and after the next move with nothing eaten it is full |
| SnakeGame.Snake.constructor | the_snake.py:96-101 | a new snake has length 1, the single cell (320, 240), heading right and no pending heading |
| SnakeGame.Snake.HandleKeys | the_snake.py:144-158 | the pending heading after a poll is the fold of the presses over the unchanged heading |
| SnakeGame.Snake.UpdateDirection | the_snake.py:103-107 | a pending heading becomes the heading and is cleared; without one nothing changes |
| SnakeGame.Snake.Move | the_snake.py:109-116 | exactly one new head, the wrapped step from the old head, is put in front of the unchanged older cells |
| SnakeGame.Snake.HeadPosition | the_snake.py:130-132 | the head is a cell of the body |
| SnakeGame.Snake.Reset | the_snake.py:134-141 | length 1, the single cell (320, 240), and one of the four headings |
| SnakeGame.Game.constructor | the_snake.py:164-169 | both foods on board cells (possibly the same cell or the start cell), a new snake at the centre heading right |
| SnakeGame.Game.Eat | the_snake.py:180-187 | on the moved body: the apple is tested first and grows the length by exactly 1, else the melon by exactly 2, else nothing; the eaten food is re-placed on a board cell outside the body and off the other food, the uneaten one keeps its cell; `starved` is true exactly when the eaten food had no free cell |
| SnakeGame.Game.Tick | the_snake.py:173-193 | `TickStep` from the old state to the new: the heading from the presses, one move, the apple tested before the melon and the length growing by exactly 1 or 2 (or not at all), the eaten food re-placed on a board cell outside the moved body and the other food and the uneaten one kept, a single tail trim, a restart exactly when the head lies on the trimmed body, and the NoFreeCell stop; the invariant 1 <= body <= length, all cells on the board, no pending heading, is kept |
| SnakeGame.Game.Run | the_snake.py:171-193 | a run keeps the invariant; its ghost trace runs from the start state to the final one and `Replays` the polls, one `TickStep` per tick, and every state of the trace keeps 1 <= body <= length with the body and both foods on the board; it runs every poll, or stops at the first tick that finds no free cell for a food, before the polls are used up |
| SnakeGame.TickStepKeepsBoard | the_snake.py:173-193 | a tick from a state with 1 <= body <= length and the body and both foods on board cells ends in such a state, whatever its outcome |
| SnakeGame.ReplaysKeepBoard | the_snake.py:171-193 | every state of a replayed run that starts on the board is on the board |
| SnakeGame.ReplaysStep | the_snake.py:171-193 | in a replayed run, state i goes to state i + 1 by one tick on poll i, with outcome i |

## Left out

- The window, caption, clock and `SPEED` pacing: I/O and timing.
- All drawing and the colour constants: pixel rendering.
- Event polling, the quit event and the Escape key, which end the program: a
  poll is modelled as a finite sequence of key presses; `OtherKey` stands for
  every key the game ignores.
- The random source: `PlaceFood` and `Reset` pick any allowed value, and
  nothing is said about uniformity.
- The class hierarchy and the placement mixin: a food is a plain cell of the
  `Game` class.
- The endless `while True` loop: `Run` covers a finite run of polls.
- SnakeGame.Snake.HeadPosition: requires a non-empty body; the Python code
  raises an IndexError on an empty list, and no caller produces one.
