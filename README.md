# Code puzzle board, rate limiter and shuffle — a Dafny model

This project models the logic core of a code-arrangement puzzle. A program is cut into
code blocks, and the player drags each block to its place on a board.

- **Puzzle board.** The state lives in `components/puzzle-board.tsx`. Loading a puzzle
  stacks the blocks at the left. Dropping a block snaps it to an indent/line grid and
  clamps it into the board. Every drop is recorded in a linear undo/redo history.
  "Check" flags the blocks that are farther than a tolerance from their correct
  position. "Hint" points a random flagged block toward its target, then starts a
  cooldown.
- **Rate limiter.** `lib/rateLimiter.ts` keeps one request count per client and one
  window start shared by all clients.
- **Shuffle.** `getRandomPositions` in `lib/utils.ts` shuffles 1 .. n-1 in place with a
  descending Fisher-Yates loop.

Modules:

- `Arith`: small arithmetic lemmas.
- `Random`: a value of `Math.random()` as a fraction in [0, 1), and `floor(random * n)`.
- `Geometry`:
  - `Math.round` as `floor((2·num + den) / (2·den))`;
  - snapping, clamping and their composition `Land`;
  - the per-axis hint sign.
- `History`: the snapshot history as a value, with push, undo and redo.
- `PuzzleBoard`:
  - the data types;
  - `Array.prototype.find`;
  - the flagged-block filter, the hint choice and the drop map;
  - `class Board`, which holds the component's state and has one method per handler.
- `RateLimiter`:
  - `Step`, one call as a function on the limiter state;
  - `class Limiter` over the module-level map and window start;
  - `StepPerWindow`, a corrected step that resets every client when a window opens (see
    "Findings").
- `Utils`: `getRandomPositions` as a method over a local array. It is specified by the
  function `Shuffle`.

Inputs:

- `TOLERANCE`, `INDENT_WIDTH` and `LINE_HEIGHT` come from a constants module that is not
  part of this model. They are constructor parameters of `Board`. The two cell sizes
  must be positive.
- Time, randomness and DOM sizes are parameters:
  - `now` for `Date.now()`;
  - a `Draw` (num/den with num < den) for each `Math.random()`;
  - `Measures` for the `clientWidth`/`clientHeight` reads (`None` when a ref is
    missing). The block width comes from the single block ref that every rendered
    block writes (components/puzzle-board.tsx:315). It is therefore the width of
    whichever block attached last, not necessarily the width of the dragged block. The
    bounds proved for a drop are on the block's top-left corner. The block's right edge
    stays inside the board only if the block is no wider than that measured width;
  - `CooldownExpired` for the 10-second timer firing.
- Pixels are integers.

## Model

| member | source | states |
|---|---|---|
| Random.Pick | components/puzzle-board.tsx:169 | `floor(random * n)` for a random value in [0, 1) is a valid index below n |
| Geometry.Round | components/puzzle-board.tsx:229-234 | `Math.round(num / den)` lies within half a step of num/den, a half rounding up |
| Geometry.RoundUnique | components/puzzle-board.tsx:229-234 | no other integer lies in that half-open band, so Round is exactly `Math.round` |
| Geometry.Snap | components/puzzle-board.tsx:229-234 | the snapped coordinate is within half a cell of the raw one, a half moving it forward; specified further by SnapOnGrid, SnapNearest and SnapFixesGrid |
| Geometry.RoundMono | components/puzzle-board.tsx:229-234 | `Math.round` is monotone: a larger numerator never rounds to a smaller integer |
| Geometry.SnapMono | components/puzzle-board.tsx:229-234 | snapping is monotone: a larger raw coordinate never snaps to a smaller grid line |
| Geometry.SnapOnGrid | components/puzzle-board.tsx:229-234 | a snapped coordinate is cell + k·cell for an integer k, within half a cell of the raw coordinate |
| Geometry.SnapNearest | components/puzzle-board.tsx:229-234 | no grid line is closer to the raw coordinate than the snapped one |
| Geometry.SnapFixesGrid | components/puzzle-board.tsx:229-234 | snapping a coordinate already on the grid returns it unchanged |
| Geometry.Clamp | components/puzzle-board.tsx:238-246 | `max(lo, min(v, hi))` is at least lo, lies in [lo, hi] when lo <= hi, returns v inside the bounds and the nearer bound outside them, and gives lo when the bounds cross |
| Geometry.Land | components/puzzle-board.tsx:229-246 | snap-then-clamp gives at least one cell, at most the upper bound whenever that bound is at least one cell, and moves a coordinate that is already inside the bounds by at most half a cell; specified further by LandInBounds, LandFixesGridInBounds, LandIdempotentInBounds and LandNotIdempotentAtOffGridEdge |
| Geometry.LandInBounds | components/puzzle-board.tsx:229-246 | a dropped coordinate is at least one cell, at most the upper bound whenever that bound is at least one cell, and on the grid unless it was pushed back to the upper bound |
| Geometry.LandFixesGridInBounds | components/puzzle-board.tsx:229-246 | a coordinate on the grid and inside the bounds lands where it is |
| Geometry.LandIdempotentInBounds | components/puzzle-board.tsx:229-246 | for a release inside the bounds, landing again where the block landed leaves it there |
| Geometry.LandNotIdempotentAtOffGridEdge | components/puzzle-board.tsx:229-246 | outside the bounds re-landing can move a block: with cell 10 and an off-grid bound 24, a release at 27 lands on 24, and dropping that block in place moves it to 20 |
| Geometry.HintAxis | components/puzzle-board.tsx:175-188 | a hint component is in {-1, 0, 1}; it is 0 iff the difference is within tolerance, 1 iff it is above the tolerance, and -1 iff it is below minus the tolerance |
| History.Start | components/puzzle-board.tsx:86-89 | a fresh history holds exactly the initial snapshot, current, with nothing to undo or redo |
| History.Push | components/puzzle-board.tsx:257-260 | recording keeps the snapshots up to the current one, appends the new one as current, leaves nothing to redo, and makes the length the old index + 2 |
| History.Undo | components/puzzle-board.tsx:100-108 | undo moves the index back by exactly one when it is above 0 and is a no-op at 0; the snapshots never change and the index stays in range |
| History.Redo | components/puzzle-board.tsx:110-118 | redo moves the index forward by exactly one below the last snapshot and is a no-op at the last; the snapshots never change and the index stays in range |
| History.UndoTimes | components/puzzle-board.tsx:100-108 | n undos lower the index by n, stopping at 0 |
| History.RedoAfterUndo | components/puzzle-board.tsx:100-118 | an undo followed by a redo restores the history |
| History.UndoAfterRedo | components/puzzle-board.tsx:100-118 | a redo followed by an undo restores the history |
| History.UndoAfterPush | components/puzzle-board.tsx:257-260 | undoing a recorded drop returns to the snapshot that was current before it |
| History.PushAfterUndos | components/puzzle-board.tsx:257-260 | recording after n undos discards every later snapshot: the result is the prefix up to the reached snapshot plus the new one |
| PuzzleBoard.Find | components/puzzle-board.tsx:125 | `find` returns nothing iff no element satisfies the predicate; otherwise an element of the sequence that satisfies it |
| PuzzleBoard.FindFirst | components/puzzle-board.tsx:125 | the element `find` returns is the first one that satisfies the predicate |
| PuzzleBoard.InitialPositions | components/puzzle-board.tsx:80-84 | one placement per block, with the same ids in order; block k sits at (20, 20 + 60·k) |
| PuzzleBoard.IsIncorrect | components/puzzle-board.tsx:125-135 | a block is flagged iff it has a placement and the hint direction toward its correct position is nonzero, so the check and the hint agree on what is misplaced (the same per-block test recurs at :150-157) |
| PuzzleBoard.IncorrectBlocks | components/puzzle-board.tsx:149-158 | a block is in the flagged list iff it is a puzzle block that has a placement farther than the tolerance from its correct position on some axis |
| PuzzleBoard.IncorrectBlocksAppend | components/puzzle-board.tsx:149-158 | flagging is a filter in puzzle order: the flagged blocks of a concatenation are those of each part, in order |
| PuzzleBoard.FlaggedStep | components/puzzle-board.tsx:124-136 | one more block appends its id to the flagged ids exactly when that block is flagged |
| PuzzleBoard.SolvedIffNoneFlagged | components/puzzle-board.tsx:140-142 | the flagged list is empty iff no block is misplaced |
| PuzzleBoard.Direction | components/puzzle-board.tsx:173-188 | per axis, the direction is 0 iff the difference is within tolerance, and otherwise the sign of target minus current |
| PuzzleBoard.ChooseHint | components/puzzle-board.tsx:148-189 | there is no hint iff no block is misplaced; otherwise the hint names a misplaced puzzle block that has a placement, and its direction is nonzero, has components in {-1, 0, 1} and points from the placement to the correct position |
| PuzzleBoard.DropEntry | components/puzzle-board.tsx:221-253 | the map callback keeps the id; it returns the entry unchanged for another block, for an id with no puzzle block, or when a ref is missing; a moved entry is at least one cell from the top-left. Its far bounds are XMax = canvasWidth − blockWidth (:240) and YMax = canvasHeight − LINE_HEIGHT − 39 (:245). Specified further by DropLandsInBoard and DropInPlaceOnGrid |
| PuzzleBoard.Drop | components/puzzle-board.tsx:220-254 | a drop keeps the ids and order of the placements and changes no entry of another block; with no puzzle block of that id, or no board measures, nothing changes |
| PuzzleBoard.DropLandsInBoard | components/puzzle-board.tsx:221-251 | the dragged entry's top-left corner lands inside the measured bounds: at least one cell from the top-left, within the far bounds when they leave room, and on the grid unless pushed back to a far bound |
| PuzzleBoard.DropInPlaceOnGrid | components/puzzle-board.tsx:221-251 | dropping a block in place, when it already sits on the grid inside the board, changes nothing |
| PuzzleBoard.PushKeepsIds | components/puzzle-board.tsx:257-260 | if every snapshot holds one placement per puzzle block, that stays true after recording such a snapshot |
| PuzzleBoard.Board.constructor | components/puzzle-board.tsx:77-94 | after mounting, the placements are the initial stack, the history is exactly that one snapshot with index 0, and highlights and hint are cleared |
| PuzzleBoard.Board.Load | components/puzzle-board.tsx:77-94 | loading a puzzle restacks the placements, restarts the history with that single snapshot, clears highlights and hint, and leaves the drag, dialog and cooldown state alone |
| PuzzleBoard.Board.DragStart | components/puzzle-board.tsx:96-98 | the dragged block becomes the active one |
| PuzzleBoard.Board.Undo | components/puzzle-board.tsx:100-108 | the history moves as History.Undo, the placements are the new current snapshot, and a step clears highlights and hint; at the first snapshot nothing changes |
| PuzzleBoard.Board.Redo | components/puzzle-board.tsx:110-118 | the history moves as History.Redo, the placements are the new current snapshot, and a step clears highlights and hint; at the last snapshot nothing changes |
| PuzzleBoard.Board.FlaggedIds | components/puzzle-board.tsx:121-136 | the loop collects exactly the ids of the flagged blocks, in puzzle order |
| PuzzleBoard.Board.Check | components/puzzle-board.tsx:120-143 | the highlighted ids are the flagged ids, and the success dialog opens when none is flagged |
| PuzzleBoard.Board.GiveHint | components/puzzle-board.tsx:145-196 | during the cooldown, or with no block misplaced, nothing changes; otherwise the hint is ChooseHint's block and direction, and the cooldown starts |
| PuzzleBoard.Board.CooldownExpired | components/puzzle-board.tsx:193-195 | when the timer fires, hints are available again |
| PuzzleBoard.Board.Record | components/puzzle-board.tsx:257-269 | the new placements become current and are recorded as History.Push; highlights and hint are cleared |
| PuzzleBoard.Board.DragEnd | components/puzzle-board.tsx:214-270 | the placements become Drop of the old ones; the history grows as History.Push even when nothing moved; no block is active; highlights and hint are cleared; the board invariant is kept |
| RateLimiter.Count | lib/rateLimiter.ts:18 | a client with no entry has count 0 (`?? 0`), and a bounded map gives a count within [0, 5] |
| RateLimiter.Step | lib/rateLimiter.ts:8-23 | a window opens iff more than a minute has passed, strictly, and then starts now; the call is limited iff the caller's count in the current window, 0 when it has none, has reached 5; a limited call changes no count; an accepted call adds exactly one; no other client's entry changes; counts stay within [0, 5] |
| RateLimiter.RunBounded | lib/rateLimiter.ts:18-20 | from an empty or bounded map, no sequence of calls takes a count past 5 |
| RateLimiter.AcceptedWithinWindow | lib/rateLimiter.ts:11-20 | within one window a client is let through at most 5 minus its starting count times |
| RateLimiter.CountWithinWindow | lib/rateLimiter.ts:17-20 | within one window a client's count grows by exactly the number of its calls that are let through |
| RateLimiter.StaleCountAfterNewWindow | lib/rateLimiter.ts:11-15 | as written, a client that used its 5 requests stays limited after another client opens a new window |
| RateLimiter.StepPerWindow | lib/rateLimiter.ts:11-15 | with per-window reset, a new window starts every client from zero and the call is let through; within a window it behaves as Step; counts stay bounded |
| RateLimiter.PerWindowForgetsEveryClient | lib/rateLimiter.ts:11-15 | with per-window reset, the client of the example above is let through |
| RateLimiter.PerWindowAgreesWithinWindow | lib/rateLimiter.ts:11-20 | for calls inside one window, the corrected limiter and the limiter as written reach the same state and let the same calls through |
| RateLimiter.PerWindowCountsCallsSinceWindowOpened | lib/rateLimiter.ts:11-20 | with per-window reset, once a call opens a window and the later calls stay in it, every client's count is the number of its calls let through since the window opened |
| RateLimiter.PerWindowLetsIdleClientThrough | lib/rateLimiter.ts:11-20 | with per-window reset, a client with no call let through since the current window opened is let through on its next call, whenever that call comes |
| RateLimiter.Limiter.constructor | lib/rateLimiter.ts:1-6 | at module load the map is empty and the window starts now |
| RateLimiter.Limiter.RateLimit | lib/rateLimiter.ts:8-23 | the answer and the new map and window start are exactly those of Step; counts stay within [0, 5] |
| Utils.Ascending | lib/utils.ts:23 | the array before shuffling is [1, ..., n-1]: length n-1 for n >= 1, empty otherwise |
| Utils.Swap | lib/utils.ts:26 | the destructuring swap exchanges positions i and j and leaves every other position alone |
| Utils.SwapIndex | lib/utils.ts:25 | each swap index j satisfies 0 <= j <= i |
| Utils.SwapIndicesOf | lib/utils.ts:24-25 | the step for position i takes draw number len-1-i, one draw per step from the last position down |
| Utils.ShuffleFrom | lib/utils.ts:24-27 | the loop from position i down keeps the length and never touches a position after i |
| Utils.Shuffle | lib/utils.ts:24-27 | the whole loop keeps the length and swaps nothing for fewer than two elements; specified further by ShuffleOfAscending and GetRandomPositions |
| Utils.ShuffleFromPermutes | lib/utils.ts:24-27 | the loop only swaps, so its result is a permutation of its input |
| Utils.ShuffleStep | lib/utils.ts:24-27 | one turn of the loop leaves exactly the rest of the loop to do |
| Utils.PermutationOfAscending | lib/utils.ts:23-27 | a permutation of [1, ..., n-1] holds only values in 1 .. n-1, without repeats |
| Utils.ShuffleOfAscending | lib/utils.ts:22-29 | the shuffle of [1, ..., n-1] has length n-1 and is a permutation with distinct values in range; for n <= 2 no swap happens |
| Utils.GetRandomPositions | lib/utils.ts:22-29 | the in-place loop computes Shuffle of [1, ..., n-1] under its draws: distinct values 1 .. n-1, each once, and [] or [1] when n <= 2 |

## Left out

- Rendering is not modelled. This covers the JSX, the dnd-kit sensors and modifiers,
  the toasts, the success dialog, the development-only grid
  lines (components/puzzle-board.tsx:289-306), the unused `highlightedPoint` state and
  the `console.log` in `handleCheck`.
- The keyboard listener is not modelled. It only maps Ctrl/Cmd+Z to `handleUndo` and
  Ctrl/Cmd+Y to `handleRedo`, which are modelled as `Board.Undo` and `Board.Redo`.
- PuzzleBoard.Board.constructor: the brief state before the initialisation effect runs
  is not modelled. That state has empty placements, an empty history and index -1. The
  constructor is the state after the effect's first run; `Load` is the effect running
  again for a new puzzle.
- React state batching and the stale closure in the drop handler are not modelled. The
  handler reads `history` and `historyIndex` from its closure while the placements come
  from the updater argument. Here every handler runs on the current state, where the
  placements are the current snapshot.
- Floating point is not modelled. Pixels, drag deltas and DOM sizes are integers, and
  `Math.round` is exact on the integer quotient.
- The timer is not modelled: `setTimeout` is replaced by a `CooldownExpired` call.
  `Math.random()` and `Date.now()` are parameters.
- The constants module (`TOLERANCE`, `INDENT_WIDTH`, `LINE_HEIGHT`), `components/code-block.tsx`,
  the app pages, the puzzle generation and network code, the schemas, and `cn` and
  `mergeRefs` in `lib/utils.ts` are not part of this model.
- The code has no treatment of duplicate lines as interchangeable, no workspace boundary
  column, and no revert of a drop onto an occupied row, so none of these is modelled.
  Check and hint compare each block only with its own correct position.
- Landing twice equals landing once for every release inside the bounds
  (`LandIdempotentInBounds`). Re-landing moves a block only after a release beyond an
  off-grid far bound whose bound then rounds down (27 → 24 → 20 with cell 10 and bound
  24, `LandNotIdempotentAtOffGridEdge`). So a block that was pushed back to such a bound
  is not "already snapped". The model follows the code.
- PuzzleBoard.Board.GiveHint, Random.Pick, Utils.SwapIndex, Utils.SwapIndicesOf and
  Utils.GetRandomPositions require every draw to lie in [0, 1). This is what
  `Math.random()` guarantees.

## Findings

| source | as written | input that shows it | evidently intended | confidence | as-written member | corrected member |
|---|---|---|---|---|---|---|
| lib/rateLimiter.ts:12-15 | a new window resets only the calling client's count, although the window start is shared by all clients | client "b" has 5 requests in the window that starts at 0; client "a" calls at 60001 and opens a new window; "b" calls at 60002 and is limited, with no request in the new window | a new window starts every client from zero | medium, not executed | RateLimiter.StaleCountAfterNewWindow | RateLimiter.StepPerWindow |

`RateLimiter.Limiter.RateLimit` models the code as written. The intended property of
the corrected step is proved for all inputs by `RateLimiter.PerWindowCountsCallsSinceWindowOpened`
and `RateLimiter.PerWindowLetsIdleClientThrough`.
