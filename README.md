# Snake game engine, modelled in Dafny

This project models the game engine of a browser snake game (`script.js`). The snake moves on a
16 x 16 board whose edges wrap around. It eats food and grows, and the game ends when the head runs
into the body. The model covers:

- the state kept by the `snake`, `food`, `score` and `game` objects;
- the pure helpers beside them: the head's next cell, `getRandomNumber`, and the tile-name
  computation of `renderSnake`/`getSuffix`.

Modules, one file each:

- `grid.dfy` (`Grid`): `Coord` (top, left), `Direction`, the one-axis wrap and `NextPosition`
  (`snake.getNextPosition`). `NextPosition` is proved equal to reduction modulo the board size.
  A step followed by the opposite step returns to the start cell.
- `snake.dfy` (`SnakeState`): class `Snake` with fields `direction` and `parts` (tail first). It has
  `SetDirection` (specified by the guard `GuardDirection`), `GetNextPosition` (the function
  `NextPosition` of the head and the direction), `SetPosition` (specified by `Advance`) and `Reset`
  (which sets `InitialParts` and Right). `ValidBody` is the body invariant: at least three segments, all on
  the board, pairwise distinct, each a torus neighbour of the one before it.
- `food.dfy` (`FoodPool`): `Math.trunc`, `getRandomNumber`, `findIndex` (`FindIndex`),
  `splice(i, 1)` (`SpliceOne`), and class `Food` with `Reset`, `RemoveItem` and `GenerateItem`.
- `score.dfy` (`Scoring`): class `Score` with integer fields `current` and `high`.
- `tiles.dfy` (`Tiles`): `getSuffix` (`Suffix`) and the tile names `renderSnake` composes
  (`TileNames`). A proved result: every name composed for a valid body is one of the images the page
  preloads.
- `game.dfy` (`GameEngine`): the three-valued `Status` and class `Game`.
  - `Game` has the methods `Reset`, `Start`, `Pause`, `Stop`, `KeysHandler` and `Move` (one tick).
  - The invariant `Valid()` holds after every method: a valid body, exactly 3 food items off the last
    row and column, and `0 <= current <= high`.
  - `Scenarios` replays the first ticks of a game.

Modelling choices:

- `Math.random()` is a parameter. A `Draw` holds the two values in [0, 1) that `generateItem`
  consumes, top first, and methods that create food take their draws as arguments.
- `getRandomNumber(0, size - 1)` truncates, so new food lies in [0, 14] on each axis. Every such
  cell is reachable, and the last row and column never get food.
- Collision is membership of the next cell in `snake.parts`, the tail included. The tail's cell is
  vacated only later in the same tick.
- The direction guard compares against the stored direction, as in the code. `TwoPressesReverse`
  shows that two key presses between ticks can turn the snake back into its own neck.
- `getSuffix(a, b)` names the side of `a` on which `b` lies. For example, `(0,0)` against `(0,3)` on
  a 4-wide board gives `_l`.

## Model

| member | source | states |
|---|---|---|
| `Grid.Wrap` | script.js:587-603 | for a value at most one step off the board, the wrapped value is on the board and equals the value modulo size (-1 goes to size-1, size goes to 0) |
| `Grid.NextPosition` | script.js:566-606 | from a cell on the board, the next head cell is on the board, each axis is (coordinate + step) mod size, and the axis not moved along is unchanged |
| `Grid.WrapEdges` | script.js:590-603 | stepping off any edge re-enters on the opposite edge |
| `Grid.StepBack` | script.js:566-606 | a step followed by the opposite step returns to the starting cell |
| `Grid.StepMoves` | script.js:566-606 | on a board at least two cells wide a step always leaves the current cell |
| `Grid.Opposite` | script.js:550-553 | the opposite of a direction differs from it and stays on the same axis |
| `SnakeState.GuardDirection` | script.js:546-558 | the exact opposite of the stored direction is dropped; every other request, the stored direction included, becomes the new direction |
| `SnakeState.GuardNeverReverses` | script.js:546-558 | one request never leaves the snake heading opposite to its stored direction |
| `SnakeState.TwoPressesReverse` | script.js:546-558 | a perpendicular press followed by the reverse press does turn the snake around between two ticks |
| `SnakeState.Shift` | script.js:620-623 | dropping the tail removes exactly the first segment and keeps the rest in order; an empty body stays empty |
| `SnakeState.Advance` | script.js:614-627 | the new head is the last segment; with shift the length is kept and the old tail is gone, without it the length grows by one; kept segments stay in order |
| `SnakeState.InitialBodyValid` | script.js:632-640 | the reset body (0,0),(0,1),(0,2) satisfies the body invariant |
| `SnakeState.AdvanceKeepsBody` | script.js:614-627 | appending a neighbouring cell that is not on the body keeps the body invariant, with or without dropping the tail |
| `SnakeState.Snake.constructor` | script.js:528-539 | the snake starts with an empty body |
| `SnakeState.Snake.SetDirection` | script.js:546-558 | the new direction is the guard's outcome for the old direction and the request |
| `SnakeState.Snake.GetNextPosition` | script.js:566-606 | the next cell is the head moved one step in the stored direction (`Grid.NextPosition`, which gives the wrap); for a head on the board it is on the board, differs from the head and is its torus neighbour |
| `SnakeState.Snake.SetPosition` | script.js:614-627 | the new body is `Advance` of the old body |
| `SnakeState.Snake.Reset` | script.js:632-640 | the body becomes (0,0),(0,1),(0,2) and the direction Right |
| `FoodPool.Trunc` | script.js:749 | the result is the integer next to x in the direction of zero |
| `FoodPool.RandomNumber` | script.js:748-750 | for 0 <= min < max and a draw in [0, 1) the number lies in [min, max - 1] |
| `FoodPool.RandomNumberReaches` | script.js:748-750 | every number in [min, max - 1] is produced by some draw in [0, 1) |
| `FoodPool.NewItem` | script.js:699-703 | a generated item lies in [0, size - 2] on both axes, so it is on the board |
| `FoodPool.NewItemReaches` | script.js:699-703 | every cell off the last row and column can be generated |
| `FoodPool.FindIndex` | script.js:678-685 | the result is -1 exactly when no item equals the position; otherwise it is the smallest index of an equal item |
| `FoodPool.SpliceOne` | script.js:692-694 | the position removed is the start itself, or for a negative start the start counted from the end, 0 when that is still negative; at that position exactly one item is removed and the others keep their order; a position past the end removes nothing; no item is invented |
| `FoodPool.Food.constructor` | script.js:653-658 | the pool starts empty |
| `FoodPool.Food.Reset` | script.js:663-668 | the pool ends with exactly FOOD_MAX items, the i-th generated from the i-th draw |
| `FoodPool.Food.RemoveItem` | script.js:692-694 | the new pool is the splice of the old one at the given index |
| `FoodPool.Food.GenerateItem` | script.js:699-708 | exactly one item is appended, generated from the draw; nothing else changes |
| `Scoring.Score.constructor` | script.js:231-258 | both the current and the high score start at 0 |
| `Scoring.Score.ResetScore` | script.js:263-266 | the current score becomes 0 and the high score is untouched |
| `Scoring.Score.ChangeScore` | script.js:271-280 | the current score rises by the value; the high score becomes the larger of itself and the new score, so it never decreases and never lies below the current score |
| `Tiles.Suffix` | script.js:475-496 | the suffix is one of "", `_l`, `_r`, `_u`, `_d`; it is horizontal exactly when the columns differ, vertical exactly when only the rows differ (so "" exactly for equal cells, see `Tiles.SuffixEmpty`) |
| `Tiles.SuffixEmpty` | script.js:475-496 | the suffix is empty exactly when the two cells are equal |
| `Tiles.SuffixSwap` | script.js:475-496 | swapping the cells turns `_r` into `_l`, `_d` into `_u` and back |
| `Tiles.SuffixOfStep` | script.js:475-496 | on a board wider than two cells, the suffix of a one-step neighbour names the step's direction, across the wrap too; from the neighbour's side it names the opposite direction |
| `Tiles.WrapNeighbourSuffix` | script.js:475-496 | (0, size-1) is the left neighbour of (0,0) across the wrap and gets `_l`, like a unit step left |
| `Tiles.TileName` | script.js:427-465 | the name starts with `tail` for the first segment, `head` for the last and `body` otherwise; on a valid body it points at the neighbours: the tail names the direction of the step to the second segment, the head the reverse of the step into it, and a body segment the reverse of the step into it followed by the direction of the step out of it |
| `Tiles.TileNames` | script.js:427-465 | one name per segment, tail first: `tail` for the first, `head` for the last and `body` for every segment between |
| `Tiles.InitialTiles` | script.js:427-465 | the reset snake is drawn as `tail_r`, `body_l_r`, `head_l` |
| `Tiles.EndTilesKnown` | script.js:765-768 | `tail` or `head` followed by any direction's suffix is a preloaded image name |
| `Tiles.BodyTileKnown` | script.js:769-771 | `body` followed by the suffixes of two different directions is a preloaded image name |
| `Tiles.SnakeTilesKnown` | script.js:427-465 | for a valid body on a board wider than two cells, every tail, head and body name `renderSnake` composes is a preloaded image |
| `GameEngine.KeyDirection` | script.js:126-141 | exactly the codes 37-40 give a direction: 38 Up, 40 Down, 37 Left, 39 Right |
| `GameEngine.Game.constructor` | script.js:721-738 | after loading, the game is Stopped, with the initial snake, a full food pool and both scores 0 |
| `GameEngine.Game.Reset` | script.js:62-67 | the status becomes Stopped, the snake is reset, the pool is refilled from the draws, the current score becomes 0 and the high score is kept |
| `GameEngine.Game.Start` | script.js:72-88 | the game ends Started; only from Stopped is it reset first; from Paused or Started, snake, food and score are unchanged |
| `GameEngine.Game.Pause` | script.js:93-100 | only Started becomes Paused; any other status is kept |
| `GameEngine.Game.Stop` | script.js:105-114 | the status becomes Stopped, whatever it was |
| `GameEngine.Game.KeysHandler` | script.js:121-148 | an arrow key passes its direction through the guard; any other key changes nothing; the body is untouched |
| `GameEngine.Game.Move` | script.js:153-190 | on a head cell already in the body the game stops and body, food and score are unchanged. On food the snake grows onto it, that item is spliced out, one new item is appended, the score rises by 1 and the high becomes the max. Otherwise the tail moves up and food and score are unchanged. The invariant holds afterwards |
| `GameEngine.Game.TilesOfValidGameKnown` | script.js:427-465 | in any valid game state every tile name of the snake is a preloaded image |

## Left out

- Rendering and DOM access: `getElement`/`getElements`, `board.render`, `cells.renderItems`,
  `renderFood`, `renderClearCell`, `findCell`, `clearItem` and the image elements. Only the tile
  names `renderSnake` computes are kept, one per segment. The order in which it draws the tiles
  (tail, head, then body) is not modelled, because it matters only when segments overlap.
- Collision through the last CSS class of the cell (`cells.getCellStatus`): the model checks the
  body instead. The two differ only for a short window. `start` draws the food after the snake, so
  food generated on a snake cell makes "food" that cell's last class until the first tick. Every
  `move` ends with `snake.render()`, which makes "snake" the last class of every segment again.
- `window.setInterval`/`clearInterval` and `alert`: scheduling and I/O. Only the status changes of
  `start`, `pause` and `stop` are kept. `Move` is callable in any status, because the timer is
  outside the model.
- `preloadImages`: asynchronous image loading. Its name list is kept only as `KnownTiles`.
- `Math.random` becomes a `Draw` parameter in [0, 1). Arithmetic is on exact reals, so
  floating-point rounding of `random * (max - min) + min` is not modelled.
- `Number.parseInt` and `innerHTML` storage: the scores are integers. The initial text of the
  score elements is in the page's HTML, which is not part of this model; both scores are taken to
  start at 0.
- `init`'s event wiring (the button listeners, the `keydown` listener, `load`). Its
  `game.reset()` is the `Game` constructor.
- `SnakeState.Snake.constructor`: the object literal's placeholder `direction: {}` is modelled as
  Right. `snake.reset` assigns Right before the direction is ever read.
- `game.setGameStatus`/`checkGameStatus`: the status is an enum field, not a class of the
  container.
