# Snake game state machine in Dafny

This project models the game logic of a small Snake game. The game runs on a
640×480 screen divided into 20-pixel cells, which makes a 32×24 grid. The
snake is a head-first list of cells. It has a direction, one of four unit
vectors, and a target length. Each tick it moves one cell, and it wraps
around the screen edges.

- When the head reaches the apple, the snake grows by one, the apple moves
  to a random free cell, and the score goes up by one.
- When the head runs into the body, the snake starts over at the center,
  the score drops to zero, and the apple is placed again.
- The arrow keys turn the snake, but a single key press that asks for the
  opposite direction is refused. The guard works per key press, not per
  tick: all events pending at a tick are handled in order before the move,
  so up then left turns a right-moving snake into a left-moving one between
  two moves (`Input.BatchCanReverse`).
- The keypad plus and minus keys change a speed counter that never drops
  below 1.

Modules, leaf first:

- `Grid` (grid.dfy): screen and cell constants, `Pos`, `Vec`, the four
  directions, `IsCell` and the center cell.
- `Body` (body.dfy): the pure step functions `NextHead`, `Moved` and
  `Turned`, with lemmas about them, and the class `Snake`. Its methods
  update `positions`, `direction` and `length` in place and are proved
  against those functions.
- `Food` (food.dfy): the cell for a random (column, row) draw, the
  specification `Placed` of the rejection loop, and the class `Apple`. Its
  `RandomizePosition` is that loop.
- `Input` (input.dfy): key-to-action dispatch, the clamped speed counter,
  and how a batch of pending events changes the direction and the speed
  (`ReactAll`, `Pending`).
- `GameLoop` (game.dfy): the class `Game`. It holds the snake, the apple,
  the score and the speed counter. Its invariant `Valid` says the snake is
  well formed, the direction is a unit vector, the speed is at least 1, and
  the apple sits on a grid cell the snake does not occupy. It also says the
  body never jumps (each segment is one wrapped step from the next) and no
  cell appears twice in it. `HandleKeys` and
  `Tick` keep that invariant.

Modelling choices:

- Python's `%` with a positive divisor equals Dafny's `%` on `int`, so the
  wrap arithmetic is written as in the source.
- Python integers are unbounded, and so are Dafny's `int`.
- The random generator is a parameter. `draws` is the sequence of (column,
  row) pairs that the generator returns, one per attempt. The rejection
  loop walks through it.
- The original loop never ends on a full board. Here the caller must
  supply a sequence that contains a free cell (`HasFreeDraw`).
- The speed counter is a module-level global in the source. Here it is the
  field `Game.speed`.
- The score is a local variable of the main loop in the source. Here it is
  the field `Game.score`.
- A reversal guard is usually meant to refuse only the exact opposite
  direction. The code instead refuses a request when either component
  negates the current one. The model follows the code (`Body.Turned`).
  - For the four unit directions, the code's test refuses the opposite
    direction and the identical one. Refusing the identical one changes
    nothing.
  - For other vectors the code's test refuses more than the opposite.
    `Turned` states the rule for every vector.
  - `TurnedUnits` states what the rule means for the four unit directions.

## Model

| member | source | states |
|---|---|---|
| `Grid.CenterIsCell` | the_snake.py:86-92 | the reset cell is the grid cell (320, 240) |
| `Body.NextHead` | the_snake.py:100-107 | the new head is on screen in both coordinates, and it is a grid cell when the old head is one (640 and 480 are multiples of 20) |
| `Body.NextHeadWraps` | the_snake.py:105-107 | from an on-screen head, a unit step that stays on screen is taken as it is. A step off one edge re-enters at the opposite edge (toroidal wrap) |
| `Body.Turned` | the_snake.py:94-98 | the new direction is either the request or the old direction. The request is taken exactly when neither of its components negates the current one. The result is never the exact opposite of the old direction unless that direction is the zero vector |
| `Body.TurnedAllButOpposite` | the_snake.py:94-98 | among the four unit directions, every request except the opposite of the current direction ends up as the direction. The opposite request leaves it unchanged |
| `Body.TurnedUnits` | the_snake.py:94-98 | among the four unit directions, a request is taken exactly when it is at right angles to the current direction. Otherwise, including an identical or an opposite request, the direction stays. The result is a unit vector and never the opposite of the old direction |
| `Body.Moved` | the_snake.py:100-112 | the first segment is the new head. The rest is a prefix of the old list. The list grows by one unless the old length plus one exceeds `length`, in which case its size stays the same. A list within `length` stays within it. No cell appears except the new head and old segments. All-grid-cell lists stay all grid cells |
| `Body.GrowKeepsSegments` | the_snake.py:109-116 | after a grow, the next move keeps every old segment behind the new head |
| `Body.LengthAfterMoves` | the_snake.py:109-112 | after n moves in any directions, the list has min(old size + n, length) segments |
| `Body.GrowThenMoves` | the_snake.py:111-116 | a full snake that grows once is exactly one segment longer after any nonempty run of moves |
| `Body.MoveAll` | the_snake.py:100-112 | repeated moves never empty the segment list. The function exists to state `LengthAfterMoves` and `GrowThenMoves` over a run of moves |
| `Body.MoveExamples` | the_snake.py:100-112 | (300,200) moving right with length 1 becomes [(320,200)]. (620,200) moving right wraps to (0,200) |
| `Body.Snake.constructor` | the_snake.py:81-84 | a new snake has length 1, the center cell as its only segment, and direction right |
| `Body.Snake.Reset` | the_snake.py:86-92 | whatever the prior state: length 1, segments [(320,240)], direction right, and the invariant holds |
| `Body.Snake.UpdateDirection` | the_snake.py:94-98 | the new direction is `Turned(old direction, request)` |
| `Body.Snake.Move` | the_snake.py:100-112 | the segments become `Moved(old segments, direction, length)`, and the invariant (nonempty, within `length`, all grid cells) is kept |
| `Body.Snake.Grow` | the_snake.py:114-116 | `length` goes up by exactly 1. Only `length` is changed, and the invariant is kept |
| `Body.Snake.HeadPosition` | the_snake.py:124-126 | the head is the first segment, and it is a grid cell |
| `Food.CellOf` | the_snake.py:66-69 | the cell of a column and row in range is a grid cell at that column and row |
| `Food.IndexOf` | the_snake.py:66-69 | every grid cell is the cell of some column and row in range |
| `Food.CellIndexRoundTrip` | the_snake.py:66-69 | a draw lands on a given cell exactly when it is that cell's index. So every free cell can be chosen, and only by one draw |
| `Food.Placed` | the_snake.py:63-71 | the chosen cell is a grid cell (i*20, j*20) that is not occupied. It is the first attempt in the draw sequence that is free, and every earlier attempt was occupied |
| `Food.Apple.constructor` | the_snake.py:58-61 | a new apple is placed by the rejection loop against the given occupied cells |
| `Food.Apple.RandomizePosition` | the_snake.py:63-71 | the loop ends with `position` equal to `Placed(draws, occupied)`, which is a grid cell that is not occupied |
| `Input.ActionOf` | the_snake.py:141-160 | quit and escape exit. The four arrows steer with a unit vector. Keypad plus and minus change the speed by +1 and -1. Every other event does nothing |
| `Input.AdjustedSpeed` | the_snake.py:132-136 | the result is max(1, speed + amount), so it is at least 1 |
| `Input.SpeedFloor` | the_snake.py:132-136 | from speed 1, a decrease leaves it at 1. From the initial 5, an increase gives 6 |
| `Input.ReactAllSane` | the_snake.py:139-160 | processing any batch of events keeps the direction a unit vector and the speed at least 1 |
| `Input.React` | the_snake.py:149-160 | an arrow key sets the direction to `Turned` of the current direction and the key's unit vector, and leaves the speed alone. A speed key sets the speed by `AdjustedSpeed` and leaves the direction alone. Any other non-quit event changes neither |
| `Input.ReactAll` | the_snake.py:141-160 | a batch is handled event by event, in order. A batch without arrow keys keeps the direction, and a batch without speed keys keeps the speed |
| `Input.ReactNeverReverses` | the_snake.py:149-156 | no single event sets the direction to the opposite of the current one. This holds per event only |
| `Input.BatchCanReverse` | the_snake.py:141-156 | a batch of two arrow keys, up then left, turns a right-moving snake to move left before the next move |
| `Input.ReversalCollides` | the_snake.py:100-112 | after such a reversal, the next move of a three-segment snake lands the head on its own body, which the tick at the_snake.py:180-183 treats as a collision and reset |
| `Input.Pending` | the_snake.py:141-148 | the handled events are the longest prefix without a quit request. When it stops early, the next event is a quit request |
| `GameLoop.PendingUpTo` | the_snake.py:141-148 | if the first i events hold no quit request and event i is one (or there is none), exactly those i events are handled |
| `GameLoop.MovedShape` | the_snake.py:100-112 | a move in a unit direction keeps the body connected (each segment one wrapped step from the next). It keeps the body free of repeated cells when the new head lands off the rest of the body |
| `GameLoop.MoveAvoidsApple` | the_snake.py:173-180 | a move whose new head misses the apple leaves the apple off the snake |
| `GameLoop.Game.constructor` | the_snake.py:165-168 | start: snake at the center, apple on a free cell, score 0, speed 5, and the game invariant holds |
| `GameLoop.Game.ChangeSpeed` | the_snake.py:132-136 | speed becomes `AdjustedSpeed(old speed, amount)` |
| `GameLoop.Game.HandleEvent` | the_snake.py:149-160 | one non-quit event changes the direction and the speed as `React` says, and keeps the game invariant |
| `GameLoop.Game.HandleKeys` | the_snake.py:139-160 | events are handled in order up to the first quit request. Quit is reported exactly when there is one. Direction and speed end as `ReactAll` of the handled events. The segments, length, apple and score are untouched |
| `GameLoop.Game.Tick` | the_snake.py:173-183 | after the move, three cases. Head on the apple: the segments are the moved list, length +1, score +1, and the apple goes to a cell not in the segments. Else head in the rest of the body: reset snake, score 0, and the apple goes to a free cell. Otherwise only the move. The game invariant (apple not on the snake, all cells on the grid, body connected, no cell twice) is kept in every case |

## Left out

- Rendering is not modelled: `draw_cell`, every `draw`, `screen.fill`,
  `set_caption` and `display.update` (the_snake.py:38-52, 73-75, 118-122,
  185-194). These are graphics calls with no game logic.
- The `GameObject` base class is not modelled separately. It only supplies
  the default position (0, 0) and the colour attribute. `Apple` starts at
  (0, 0) before its first placement.
- Event polling is not modelled. `pg.event.get()` becomes the `events`
  parameter of `HandleKeys`. Shutting down the window and raising
  `SystemExit` becomes the result `quit == true`, after which no further
  event is handled.
- Timing is not modelled. `clock.tick(current_speed)` is an external pacing
  call; only the value of the speed counter is modelled.
- The outer `while True` loop of `main` is not modelled as one method. It
  runs until the process ends. Each of its rounds is `HandleKeys` followed,
  when there is no quit request, by `Tick`.
- Randomness itself is not modelled. `randint` becomes the `draws`
  parameter, and the modelled loop stops at the first free draw.
- Food.Apple.RandomizePosition: requires a free cell among the draws. The
  original loops forever when the board is full, and that non-termination
  is not modelled.
- GameLoop.Game.Tick: requires a free cell among the draws for the
  placement it makes (after eating, or after a reset), for the same reason.
- GameLoop.Game.constructor: requires a free cell other than the center
  among the draws, for the same reason.
- Window set-up and the colour constants (the_snake.py:17-27) are
  configuration only.
