# Snake simulation core

This project models the simulation core of a small Snake game (`src/main.rs`)
and proves properties of it. The board is a 27 x 27 grid of cells. Each cell
is empty, holds food, or holds a snake segment ("particle"). The snake is a
list of points, head first. The game also keeps a size counter, a heading,
the food position, and the `paused` and `finished` flags. On each update tick
the head steps one cell and wraps at the edges. The body follows, and one
board cell is cleared. Then the cell at the new head decides what happens:
food makes the snake grow and new food is placed, a segment finishes the
game, and an empty cell needs nothing more. Finally the new head's cell is
marked as a segment. The main loop leaves once the game is finished. It
handles a key, skips the rest of the pass while paused, and runs a tick on
an update event.

Layout:

- `geometry.dfy` (module `Geometry`): points with 8-bit coordinates and
  headings. It holds the toroidal head step, the turn rule, and the growth
  offset `eat_food` uses.
- `field.dfy` (module `Field`): the board as a value. It holds the single-cell
  write, the row-by-row scan for empty cells, the random choice among them,
  and food placement.
- `rules.dfy` (module `Rules`): the whole game state as a value. It has one
  function for each operation and for one tick, plus the main loop over a
  sequence of events, and the lemmas about them.
- `snake.dfy` (module `Snake`): the program's own objects. A `Board` owns the
  27 x 27 `array2`. A `Game` updates its fields in place. An `App` runs the
  tick and the loop. Each method is proved to produce exactly the state that
  the matching `Rules` or `Field` function describes.
- `wrappers.dfy` (module `Wrappers`): `Option`.

The random generator is a parameter. `Field.IsChooser(pick)` says that a
draw `pick: nat -> nat` gives an index in `0..n` for every `n > 0`. Each
call of `find_empty_spot` draws again from the thread-local generator, whose
state carries over between calls, so the loop takes a sequence `draws` with
one chooser per pass (`Rules.Choosers`).
A single pass eats at most once, so it draws at most once.

Behaviour of the code that the model keeps as written:

- A tick pops the tail and then clears the cell of the *new* last segment,
  which is still part of the body. It does not clear the popped cell. That
  cell is usually empty already, because the previous tick cleared it or,
  for the initial snake, because the snake was never written to the board.
  It is not always empty. A segment that eating appended and marked stays
  marked after it is popped. So does the tail left by a tick whose head
  landed on the cell it had just cleared, because that tick marks the cell
  again. See `Rules.Vacated`, `Rules.Moved` and
  `Rules.PlainTickUnmarksLastSegment`.
- The growth offsets depend on the heading only, not on where the tail
  points, and those of UP and DOWN point the other way from those of LEFT
  and RIGHT. Heading UP or DOWN, the grown segment lands on the segment
  before the tail when that segment is one step from the tail along the
  heading. Heading LEFT or RIGHT, it lands there when that segment is one
  step from the tail against the heading. In the two other cases it lies one
  step behind the tail. See `Rules.VerticalGrowthOverlapsBody`,
  `Rules.HorizontalGrowthOverlapsBody`, `Rules.VerticalGrowthExtendsTail`
  and `Rules.HorizontalGrowthExtendsTail`.
- The board and the snake do not stay in agreement. The initial snake is
  never written to the board, and every tick whose head does not land on the cleared cell leaves one
  body cell unmarked. When the head does land there, the tick marks that
  cell again.
- Food placed by `eat_food` can land on the cell the next tick clears, which
  is a body segment. That tick clears it while the food position still
  points at it, so the board is left with no food.
- The snake always has at least three segments, and `eat_food` asserts more
  than one. `Rules.Valid` asks for at least two.
- The turn rule compares a request with the current heading only. Two key
  presses between ticks, such as UP then RIGHT while heading LEFT, reverse
  the snake, and its head steps onto the neck. In the new game's
  three-segment snake the neck is the cell the tick clears, so nothing is
  hit and the cell ends up in the body twice. In a longer snake the tick
  does not clear the neck, so a marked neck ends the game. See
  `Rules.TwoTurnsReverse` and `Rules.DoubleTurnRunsIntoNeck`.

## Model

| member | source | states |
|---|---|---|
| Geometry.Step | src/main.rs:233-262 | the new head stays on the 27 x 27 board; it moves by one modulo 27 along the heading (UP and LEFT decrease); exactly one coordinate changes |
| Geometry.StepWrapsAtEdges | src/main.rs:233-262 | LEFT at x=0 gives x=26, RIGHT at x=26 gives x=0, UP at y=0 gives y=26, DOWN at y=26 gives y=0 |
| Geometry.StepReverse | src/main.rs:233-262 | a step followed by a step in the reverse heading returns to the start, across the wrap too |
| Geometry.Turn | src/main.rs:120-151 | the heading is kept when the request equals it or its reverse, otherwise it becomes the request; never the reverse of the old heading |
| Geometry.TurnIdempotent | src/main.rs:120-151 | repeating a direction request has no further effect |
| Geometry.GrowthTail | src/main.rs:157-162 | the grown segment is on the board and differs from the tail; for UP/DOWN it is one step along the heading, for LEFT/RIGHT one step against it |
| Geometry.CanGrow | src/main.rs:158-165 | growth stays on the board exactly when the tail plus the heading's offset has both coordinates in 0..26; otherwise the 8-bit arithmetic underflows or the board index is out of range |
| Field.Blank | src/main.rs:45-49 | a new board has every cell empty |
| Field.Write | src/main.rs:51-53 | writing sets exactly cell (x, y) and leaves every other cell unchanged |
| Field.Scan | src/main.rs:70-76 | the scan up to cell (r, c) collects at most r * 27 + c points |
| Field.Empties | src/main.rs:68-76 | the full scan collects at most 27 * 27 points |
| Field.ScanMembers | src/main.rs:70-76 | a point is in the scan up to cell (r, c) exactly when it is an empty board cell before (r, c) in row-by-row order |
| Field.EmptiesMembers | src/main.rs:70-76 | a point is collected by the full scan exactly when it is an empty cell of the board |
| Field.FullHasNoEmpties | src/main.rs:78-80 | on a board with no empty cell the scan collects nothing |
| Field.NoEmptiesIsFull | src/main.rs:78-80 | when the scan collects nothing, every cell of the board is occupied |
| Field.EmptiesNoneIffFull | src/main.rs:78-80 | the scan is empty exactly when the board is full |
| Field.ChosenSpot | src/main.rs:67-87 | a chosen spot is an empty cell on the board |
| Field.ChosenSpotNoneIffFull | src/main.rs:67-87 | no spot is found exactly when no cell of the whole board is empty |
| Field.PlaceFood | src/main.rs:55-65 | food placement keeps a well-formed board |
| Field.PlaceFoodEffect | src/main.rs:55-65 | on a full board nothing changes; otherwise the chosen cell was empty, now holds food, and no other cell changes |
| Field.PlaceFoodSparesOccupied | src/main.rs:55-65 | an occupied cell is never chosen and keeps its content |
| Field.ChosenSpotAsWritten | src/main.rs:82-86 | with the inclusive draw, the index is one past the end exactly when the board is not full and the draw returns the upper bound |
| Field.AsWrittenIndexesPastEnd | src/main.rs:84-86 | on a fresh board, drawing the upper bound of the inclusive range indexes past the end |
| Field.AsWrittenAgreesInRange | src/main.rs:84-86 | whenever the draw stays inside the range, the inclusive draw and the corrected choice agree |
| Rules.Initial | src/main.rs:101-115 | the new game: only (6,6) on the board is set, and it holds food; the snake is (12,12),(13,12),(14,12) with size 3; heading LEFT; neither paused nor finished |
| Rules.Pause | src/main.rs:117-119 | the paused flag flips and nothing else changes |
| Rules.PauseTwiceIsIdentity | src/main.rs:117-119 | pausing twice gives back the same game |
| Rules.Last | src/main.rs:156 | the tail is one of the segments |
| Rules.ChangeDirection | src/main.rs:120-151 | only the heading may change; it never becomes the reverse; a request for the same heading or its reverse leaves the game unchanged |
| Rules.TwoTurnsReverse | src/main.rs:120-151 | a quarter turn followed by a request for the original heading's reverse is accepted, so two presses between ticks reverse the heading |
| Rules.NewTail | src/main.rs:155-162 | the segment eating appends lies on the board |
| Rules.CanEat | src/main.rs:154-165 | eating stays on the board exactly when the tail plus the heading's growth offset has both coordinates in 0..26 |
| Rules.Grown | src/main.rs:165 | after the grown segment is marked, its cell holds a segment |
| Rules.Grow | src/main.rs:153-168 | eating's first half appends exactly the new tail, increments the counter, marks the new tail's cell as a segment, and changes nothing else |
| Rules.VerticalGrowthOverlapsBody | src/main.rs:157-160 | heading UP or DOWN with the segment before the tail one step from it along the heading, the grown segment lands on that segment |
| Rules.VerticalGrowthExtendsTail | src/main.rs:157-160 | heading UP or DOWN with the segment before the tail one step from it against the heading, the grown segment lies one step behind the tail |
| Rules.HorizontalGrowthExtendsTail | src/main.rs:161-162 | heading LEFT or RIGHT with the segment before the tail one step from it along the heading, the grown segment lies one step behind the tail |
| Rules.HorizontalGrowthOverlapsBody | src/main.rs:161-162 | heading LEFT or RIGHT with the segment before the tail one step from it against the heading, the grown segment lands on that segment |
| Rules.GenerateFood | src/main.rs:177-183 | game-level food placement touches only the board, the food position and the finished flag, and never clears the finished flag |
| Rules.GenerateFoodEffect | src/main.rs:177-183 | on a full board only the finished flag is set; otherwise food moves to a cell that was empty, which now holds food, and the game stays as finished as it was |
| Rules.EatFood | src/main.rs:153-175 | eating keeps the game well-formed |
| Rules.EatFoodEffect | src/main.rs:153-175 | one segment is appended at the end and earlier segments are kept; the counter goes up by one; the new tail is marked; food lands on an empty cell other than the new tail, or the game finishes when no cell is empty |
| Rules.Advance | src/main.rs:264-265 | popping the tail and inserting the head keeps the length; the head comes first and every other segment moves up by one place |
| Rules.NextHead | src/main.rs:231-262 | the next head lies on the board |
| Rules.Vacated | src/main.rs:267 | the cell the tick clears is on the board and is a body segment other than the tail before the move, and it is still a body segment behind the head after the move |
| Rules.Moved | src/main.rs:264-269 | after the move the body follows the head; the board is the old board with exactly the new last segment's cell cleared; nothing else changes |
| Rules.Target | src/main.rs:264-271 | the cell the tick inspects is empty when the head lands on the cleared cell, and otherwise is the cell's content before the tick |
| Rules.TickSafe | src/main.rs:271-275 | the tick runs to its end exactly when the target holds no food or growth from the new last segment stays on the board |
| Rules.TickCollisionAndGrowth | src/main.rs:271-281 | except on the cleared cell, a head landing on a segment finishes the game, on food grows the snake by one, and on an empty cell keeps its length |
| Rules.Tick | src/main.rs:230-284 | the head is the stepped point and its cell holds a segment; the body follows; the length grows by one exactly on food; a segment at the target finishes the game; an empty target keeps the flag and the food; without food the board is the old board with the new last segment cleared and the new head marked; heading and pause are kept |
| Rules.PlainTickUnmarksLastSegment | src/main.rs:264-269 | after a plain move the body's last segment is no longer marked on the board |
| Rules.FirstTick | src/main.rs:230-284 | the first tick of a new game gives (11,12),(12,12),(13,12), clears (13,12), and does not finish |
| Rules.DoubleTurnRunsIntoNeck | src/main.rs:264-283 | from a new game, UP then RIGHT before the first tick (turn rule at src/main.rs:120-151) heads RIGHT onto the cleared neck (13,12); the tick neither finishes nor aborts and gives (13,12),(12,12),(13,12) |
| Rules.Input | src/main.rs:313-324 | key handling changes at most the heading and the paused flag |
| Rules.Iteration | src/main.rs:308-337 | one pass of the loop keeps the game well-formed |
| Rules.FinishedStopsLoop | src/main.rs:309-311 | a finished game leaves the loop with nothing changed, whatever the event |
| Rules.PausedSkipsTick | src/main.rs:326-328 | when the game is paused after this pass's key, the pass continues without moving the snake or touching the board |
| Rules.Run | src/main.rs:308-337 | the loop over any events, with one draw per pass, keeps the game well-formed |
| Rules.RunExitsOnlyWhenFinished | src/main.rs:309-311 | the loop is left only when the game is finished |
| Rules.RunAfterFinish | src/main.rs:309-311 | once finished, the next event leaves the loop with the state untouched |
| Rules.RunWhilePaused | src/main.rs:326-328 | while paused and with no pause key arriving, any events leave the board and the snake unchanged, and the game stays paused |
| Rules.RunNeverShrinks | src/main.rs:308-337 | the snake is never shorter after any events |
| Snake.Board.constructor | src/main.rs:45-49 | the array is 27 x 27 and every cell is empty |
| Snake.Board.UpdateBoard | src/main.rs:51-53 | the array and its value both receive exactly the one written cell |
| Snake.Board.FindEmptySpot | src/main.rs:67-87 | the nested scan returns the chosen empty cell, None exactly when the board is full, and leaves the board untouched |
| Snake.Board.GenerateFood | src/main.rs:55-65 | returns the chosen spot and leaves the board the way food placement describes |
| Snake.Game.constructor | src/main.rs:101-115 | the new game's fields are exactly the initial state |
| Snake.Game.Pause | src/main.rs:117-119 | the fields become the paused-toggled state |
| Snake.Game.ChangeDirection | src/main.rs:120-151 | the nested match produces the state the turn rule describes |
| Snake.Game.EatFood | src/main.rs:153-175 | the in-place updates produce the eating state |
| Snake.Game.GenerateFood | src/main.rs:177-183 | the in-place updates produce the food placement state |
| Snake.App.constructor | src/main.rs:298-301 | the app starts from the initial game |
| Snake.App.Update | src/main.rs:230-284 | the tick in place: it reports an abort exactly when eating would leave the board, with the body already moved; otherwise it produces the tick state |
| Snake.App.HandleEvent | src/main.rs:308-337 | one pass in place produces the state and outcome of one loop iteration |
| Snake.App.Run | src/main.rs:308-337 | the loop in place, with one draw per pass, produces the state and outcome of the loop over the events |

## Findings

| source | as written | input that shows it | evidently intended | confidence | as-written member | corrected member |
|---|---|---|---|---|---|---|
| src/main.rs:84 | the index is drawn from `0..=v.len()`, an inclusive range, and then used as `v[index]` | a fresh board (729 empty cells) and a draw of 729 reads one past the end of `v` | draw from `0..v.len()`, so every empty cell can be chosen and no draw panics | not executed | Field.AsWrittenIndexesPastEnd | Field.ChosenSpot |

`Field.ChosenSpotAsWritten` models the draw as written. It returns an extra
outcome, `IndexPastEnd`, for the out-of-range index. The rest of the model
uses `Field.ChosenSpot` with an exclusive chooser.

## Left out

- Rendering, the window, OpenGL, the event-loop settings and the `println!`
  logging are left out, because they are presentation. A render event
  leaves the game unchanged.
- The mapping of physical keys (W/A/S/D, arrows, space) to actions is left
  out. The `Command` datatype gives the resulting action: steer to a
  heading, toggle pause, or another key.
- The random generator (`rand::rng`) is replaced by the choosers `pick` and
  `draws`. Its distribution is not modelled: any chooser that stays in range
  is allowed.
- `update_position` is an empty stub, and the elapsed time in `UpdateArgs` is
  unused by the tick. Neither is modelled.
- The program aborts when eating would leave the board, because of 8-bit
  underflow at 0 or an index of 27. The model does not model the abort
  itself. `Game.EatFood` requires `Rules.CanEat`. `App.Update` checks exactly
  that condition before eating and reports it as `panicked`, and the loop
  then ends with `Crash`. The state after such an abort is the moved body,
  because the program does not go on.
- Snake.Game.EatFood: the program repeats the body of `Game::generate_food` at
  its end. The model calls `Game.GenerateFood` there instead, which has the
  same effect.
- The `usize` size counter is an unbounded `nat`. It cannot overflow on a
  27 x 27 board in any run the program can reach.
- The program does not keep the board and the snake in agreement, so no
  such invariant is stated. Only well-formedness is kept: a 27 x 27 board,
  the counter equal to the length, and every segment on the board.
