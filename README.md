# A verified model of the holzez/tetris game core

This project models, in Dafny, the simulation engine of a small SDL3 Tetris
clone: the playfield grid (`world_t`), the active piece and its catalog
(`player_t`), the level controller (`level_t`) with its gravity step, row
clearing and game-over test, and the per-button input aggregator
(`game_input_t`).  It also models the earlier single-file revision of the game
loop in `src/main.cpp`, whose move rule, event handlers and frame timers differ
from the later level controller, as variant methods over the same grid, piece
and input objects.

The project has five modules, one per component:

- `World` (`world.dfy`) is the grid.
  - `Grid` is a class over an `array2<Byte>`: `data[y, x]` is cell (x, y).
  - `Board` is its value view, and `Grid.Snapshot()` relates the two.
  - Negative rows are valid and always read as empty, as the grid's header
    note says.
  - `IsValueEmpty` is the emptiness predicate: a cell is empty exactly when
    it holds 0.
- `Input` (`input.dfy`) holds the buttons: a `Button` and a `GameInput` class,
  and the pure queries `DownCount` and `PressedOnce`.
  - `PressEdges` is an independent reference count of presses, against which
    the queries are proved.
- `Piece` (`piece.dfy`) holds the pieces.
  - It has the seven-entry catalog and the collision predicate `Placeable`.
  - The merge `Stamp` is stated as a value, and the 90-degree turn
    `Rotated` as a pure function.
  - The `Player` class keeps the shape in a 256-byte buffer, row-major with
    stride `dim.x`, exactly as the source does.
- `Level` (`level.dfy`) is the later revision's controller.
  - Row clearing is specified by `Compacted` (unfilled rows kept in order,
    empty rows on top).
  - The `Level` class holds the flags, score and gravity fields, and its
    methods are the source's level functions.
- `App` (`app.dfy`) is the earlier revision in `src/main.cpp`.
  - It has the keyboard and gamepad handlers and the count-based move.
  - Its update block runs an input window and a gravity window on two
    timers.
  - The clock reading `now` is a parameter.

Randomness, the clock and SDL are outside the model:

- The two `SDL_rand` draws of `SpawnPlayer` are parameters `newNextKind` and
  `newNextValue`. Their ranges are preconditions: kind in [0, 7), value in
  [1, 3].
- Elapsed time (`dt`) and the current time (`now`) are parameters.

## Model

| member | source | states |
|---|---|---|
| World.RowMajorIndex | src/tetris_world.h:9-14 | in a grid of width w, cell (x, y) is byte y*w + x of the row-major buffer that concatenates the rows |
| World.RowMajorLength | src/tetris_world.cpp:6 | the row-major buffer of h rows of width w has h*w bytes |
| World.Grid.constructor | src/tetris_world.cpp:3-9 | a new grid has the given size and every cell 0 |
| World.Grid.IsPositionValid | src/tetris_world.cpp:11-18 | a position is valid exactly when 0 <= x < width and y < height, so any negative y with x in range is valid |
| World.Grid.GetValue | src/tetris_world.cpp:20-38 | the read is 0 for every y < 0 and every invalid position; otherwise it is the stored cell (x, y); the copy at src/tetris_world.h:26-44 is the same code |
| World.Grid.GetValueUnchecked | src/tetris_world.cpp:40-48 | it gives 0 for y < 0, and on every position inside the grid or above it, it agrees with GetValue; the copy at src/tetris_world.h:46-54 is the same code |
| World.Grid.SetValueUnchecked | src/tetris_world.cpp:50-56 | a write at y < 0 changes nothing; otherwise exactly cell (x, y) changes, to the value; the copy at src/tetris_world.h:56-62 is the same code |
| World.Grid.SetValue | src/tetris_world.cpp:58-64 | at an invalid position or at y < 0 nothing changes; otherwise exactly that cell changes, and reading it back gives the value written; the copy at src/tetris_world.h:64-70 is the same code |
| World.Grid.IsRowFilled | src/tetris_world.cpp:71-82 | true exactly when every column of the row reads non-empty; it stops at the first empty column; the copy at src/tetris_world.h:77-88 is the same code |
| World.Grid.Reset | src/tetris_world.cpp:84-93 | afterwards every cell is 0 (the grid is EmptyRows) whatever the grid held, with the size unchanged, so a second reset changes nothing; the copy at src/tetris_world.h:90-99 is the same code |
| Input.DownCount | src/tetris_input.cpp:12-40 | with no edges the count is 1 if held and 0 if not, and it never exceeds half the edges plus one; the copy at src/main.cpp:93-122 is the same code |
| Input.PressEdgesClosedForm | src/tetris_input.cpp:16-32 | the reference press count of n alternating edges is n/2 if the window started held and (n+1)/2 if it started released: the ceilf/floorf halving on exact integers |
| Input.DownCountCountsPresses | src/tetris_input.cpp:12-40 | with edges, the down count equals the number of released-to-held edges in the window; with none, it is 1 exactly when the button is held |
| Input.PressedOnceHasPress | src/tetris_input.cpp:42-46 | "pressed once" implies that the window holds at least one press, and it is false whenever the edge count is 0 |
| Input.Edge | src/tetris_input.cpp:3-10 | the same state changes nothing; a new state sets isDown and adds exactly one edge; the state at the start of the window is kept |
| Input.EdgeIdempotent | src/tetris_input.cpp:3-10 | reporting the same state twice adds no second edge |
| Input.TapIsOnePress | src/tetris_input.cpp:3-46 | a press and a release in one window read as pressed once and as a down count of 1 |
| Input.InputState.With | src/tetris_input.h:12-28 | updating one of the four buttons leaves the other three as they were |
| Input.Flushed | src/tetris_input.cpp:48-54 | every edge count becomes 0 and every held state is kept |
| Input.FlushedIsIdle | src/tetris_input.cpp:48-54 | after a flush no button is pressed once, each down count is 1 if held and 0 if not, and flushing again changes nothing |
| Input.Button.constructor | src/tetris_input.h:6-10 | a new button is released with no edges |
| Input.Button.SetDown | src/tetris_input.cpp:3-10 | the button's new state is Edge of the old one; the copy at src/main.cpp:85-92 is the same code |
| Input.GameInput.constructor | src/tetris_input.h:12-28 | four distinct buttons, all released with no edges |
| Input.GameInput.SetButtonDown | src/tetris_input.cpp:3-10 | only the chosen button changes, and it changes by Edge |
| Input.GameInput.Flush | src/tetris_input.cpp:48-54 | the state of the four buttons becomes Flushed of the old one; the copy at src/main.cpp:130-136 is the same code |
| Piece.Kind | src/tetris_player.cpp:148-161 | every catalog entry, the zero eighth entry included, is a well-formed square of side at most 16 that fits the 256-byte buffer |
| Piece.KindIsTetromino | src/tetris_player.cpp:3-64 | entry 0 has side 4, entry 1 side 2 and entries 2-6 side 3, and each has exactly four occupied cells |
| Piece.KindBlocks | src/tetris_player.h:26-87 | each of the seven entries has four blocks inside its square |
| Piece.Rotated | src/tetris_player.cpp:124-130 | the turned shape is a square of the same side with new[j][n-1-i] = old[i][j] |
| Piece.RotateFourTimes | src/tetris_player.cpp:124-130 | turning four times gives back the original shape |
| Piece.RotationKeepsBlocks | src/tetris_player.cpp:124-130 | the blocks of the turned shape are the blocks of the old one moved by (x, y) -> (n-1-y, x), so their number is kept |
| Piece.TurnKeepsCardinality | src/tetris_player.cpp:124-130 | the quarter-turn map on block sets is injective, so it keeps their number |
| Piece.AboveGridIsFree | src/tetris_player.cpp:83-86 | when every block's column is inside the grid, only blocks at y >= 0 decide the placement: they must land on empty cells |
| Piece.PlaceableAntitone | src/tetris_player.cpp:75-95 | filling more grid cells can only make a placement invalid |
| Piece.HalfTowardZero | src/tetris_player.cpp:181 | the C division by two truncates toward zero for either sign |
| Piece.SpawnIsPlaceable | src/tetris_player.h:177-196 | a spawned catalog piece has its whole box above the grid, so it is placeable on any grid at least as wide as the piece |
| Piece.Stamp | src/tetris_player.cpp:97-113 | the merged board differs from the old one only in cells under an occupied block, which hold the value when it is non-zero |
| Piece.StampZeroIsIdentity | src/tetris_player.cpp:99 | a piece of value 0 leaves the grid unchanged |
| Piece.StampWritesBlocks | src/tetris_player.cpp:101-111 | a read after the merge gives the value under every block that lands inside the grid at y >= 0, and the old read everywhere else |
| Piece.StampAboveGridDropped | src/tetris_player.h:111-127 | a piece entirely above the grid leaves it unchanged: its writes go through SetWorldValue and are dropped |
| Piece.StampOfPlaceable | src/tetris_player.cpp:97-113 | merging a placeable piece writes its value under each of its blocks at y >= 0 and never overwrites a settled block |
| Piece.StampCoversBlocks | src/tetris_player.cpp:101-111 | when every block lands inside the grid's columns, each block at y >= 0 ends up holding the value |
| Piece.StampAt | src/tetris_player.cpp:105-108 | the grid cell under one occupied block holds the value after the merge |
| Piece.StampKeepsFilled | src/tetris_player.cpp:97-113 | merging a placeable piece leaves every settled block as it was |
| Piece.ShapeOf | src/tetris_player.cpp:81 | shape cell (x, y) is buffer byte y*dim.x + x |
| Piece.TurnedAll | src/tetris_player.cpp:124-130 | once the turning loops have covered all of i and j, the buffer they wrote holds the turned shape |
| Piece.IsPlayerPositionValid | src/tetris_player.cpp:75-95 | true exactly when every occupied cell, offset by the test position, is a valid grid position reading empty; unoccupied cells never matter; the copy at src/tetris_player.h:89-109 is the same code |
| Piece.RotateResult | src/tetris_player.cpp:132-145 | the shape the corrected check commits is either the turned shape or the old one, as the copy-back leaves it; the source's check decides differently (see Findings) |
| Piece.RotateKeepsFit | src/tetris_player.cpp:132-145 | under the corrected check, the turn is committed exactly when the turned shape is placeable at the unchanged position, so a piece that fits still fits afterwards; the check as written breaks this (RotationCheckAsWrittenMissesOverlap) |
| Piece.TurnedCopy | src/tetris_player.cpp:117-130 | the fill loop writes new[j][n-1-i] = old[i][j] for every i, j < n into a scratch buffer of stride n, so that buffer read with the piece's stride holds the turned shape; the source's scratch has stride 16 |
| Piece.CopyCorner | src/tetris_player.cpp:138-145 | the copy-back leaves the piece buffer holding the same shape as the scratch |
| Piece.Player.constructor | src/tetris_player.cpp:66-73 | a zeroed 256-byte shape buffer, a zero size, position and value, and the first "next" pair |
| Piece.Player.Rotate | src/tetris_player.cpp:115-146 | RotatePlayer with its check corrected: the shape becomes the turned shape when that is placeable at the same position and is unchanged otherwise; position, size and value never change. The source's check is RotationAcceptedAsWritten (see Findings); the copy at src/tetris_player.h:129-160 is the same code |
| Piece.Player.Spawn | src/tetris_player.cpp:163-182 | the value and kind become the old "next" pair and the shape is the catalog entry; the new "next" pair is the one drawn; the position is ((width - side)/2 truncated, -side); the copy at src/tetris_player.h:177-196 is the same code |
| Piece.SavePlayerInWorld | src/tetris_player.cpp:97-113 | the new grid is the merge of the piece into the old grid; the copy at src/tetris_player.h:111-127 is the same code |
| Piece.SaveRow | src/tetris_player.cpp:103-110 | one row of the shape writes the value exactly into the grid cells under that row's blocks |
| Piece.StampFromCells | src/tetris_player.cpp:97-113 | a grid whose cells are the value under the blocks and the old cell elsewhere is the merge |
| Piece.SeenByRotationCheck | src/tetris_player.cpp:132-136 | the shape the as-written check tests: cell (x, y) is scratch byte y*n + x of the 16 x 16 matrix: the turned shape's row 0 when y*n + x < n, and never-written scratch bytes for every later index up to 15 |
| Piece.LyingBarFits | src/tetris_player.cpp:3-7 | on the example grid the lying I bar is placeable at (5, 10) |
| Piece.StandingBarOverlaps | src/tetris_player.cpp:124-130 | on the example grid the standing I bar at (5, 10) overlaps the block at (5, 11) |
| Piece.ZeroScratchSeesOneBlock | src/tetris_player.cpp:132-136 | with zeroed scratch the as-written check sees the standing bar as a single block at its corner |
| Piece.CornerOnlyFits | src/tetris_player.cpp:75-95 | a shape whose only block is its corner is placeable wherever that cell is valid and empty |
| Piece.RotationCheckAsWrittenMissesOverlap | src/tetris_player.cpp:132-136 | the as-written check accepts a turn whose result overlaps a settled block |
| Level.KeptLength | src/tetris_level.cpp:85-117 | the rows kept plus the rows cleared are all the rows |
| Level.KeptRows | src/tetris_level.cpp:85-117 | the kept rows are exactly the unfilled rows |
| Level.KeptUnfilledRows | src/tetris_level.cpp:85-117 | without filled rows, nothing is cleared and every row is kept |
| Level.KeptAppend | src/tetris_level.cpp:85-117 | keeping and counting both split over a concatenation of rows |
| Level.Compacted | src/tetris_level.cpp:85-117 | the cleared board keeps the grid's size |
| Level.NoFilledRowAfterClear | src/tetris_level.cpp:85-117 | with width >= 1, no row of the cleared board is filled |
| Level.CompactedIdempotent | src/tetris_level.cpp:85-117 | clearing a cleared board changes nothing |
| Level.CompactedWithoutFilledRows | src/tetris_level.cpp:85-117 | a board without filled rows is left as it is, with 0 rows cleared |
| Level.RowFilledIsFilled | src/tetris_world.cpp:71-82 | the row test read through the grid agrees with a row whose every byte is non-zero |
| Level.CollapseRow | src/tetris_level.cpp:99-110 | the rows above the cleared row move down by one, row 0 becomes empty, and the rows below stay |
| Level.CopyRowDown | src/tetris_level.cpp:101-104 | one row takes the contents of the row above it; nothing else changes |
| Level.ClearTopRow | src/tetris_level.cpp:107-110 | row 0 becomes empty; nothing else changes |
| Level.CollapsedCells | src/tetris_level.cpp:99-110 | the cell-by-cell effect of one collapse is the row-level collapse |
| Level.ScanRowAt | src/tetris_level.cpp:89-91 | while scanning upward, the row the loop looks at holds the next unexamined original row |
| Level.ScanCleared | src/tetris_level.cpp:91-112 | clearing a filled row turns the scan state into the next one, with one more row cleared |
| Level.ScanKept | src/tetris_level.cpp:89-114 | skipping an unfilled row leaves the scan state and the cleared count as they were |
| Level.ScanClearStep | src/tetris_level.cpp:91-112 | the scan invariant survives a clear that re-examines the same row index (the y++) |
| Level.ScanSkipStep | src/tetris_level.cpp:89-114 | the scan invariant survives moving up past an unfilled row |
| Level.ScanTest | src/tetris_level.cpp:91 | the row test at the scanned index is true exactly when the next unexamined original row is filled |
| Level.DestroyFilledRows | src/tetris_level.cpp:85-117 | the new grid is the old one with its filled rows removed, the unfilled rows kept in order at the bottom and empty rows on top; the result is the number of rows that were filled. The loop re-examines the same row after each shift and zeroes row 0 after each clear; the copy at src/main.cpp:173-201 is the same code |
| Level.Settle | src/tetris_level.cpp:180-181 | the landing merges the piece and then clears the rows of the merged grid, counting them |
| Level.Respawn | src/tetris_level.cpp:183 | the respawned piece is the old "next" piece at the spawn position, and it fits on the grid |
| Level.CheckGameOver | src/tetris_level.cpp:67-83 | true exactly when some cell of row 0 is non-empty, whatever the piece; the second test is dead; the copy at src/main.cpp:155-171 is the same code |
| Level.Shifted | src/tetris_level.cpp:36-49 | y is unchanged; x moves by -1 for left alone, by +1 for right alone, and not at all for both or neither |
| Level.MovedTo | src/tetris_level.cpp:56-59 | the new position is either the candidate or the old position |
| Level.TryMove | src/tetris_level.cpp:56-59 | the piece moves to the candidate exactly when the candidate is placeable |
| Level.MovePlayer | src/tetris_level.cpp:34-65 | a one-column move from the keys pressed once, kept only if it fits; after it, a turn attempt at the new position when rotate was pressed once |
| Level.MoveKeepsFit | src/tetris_level.cpp:34-65 | a move is kept exactly when its target is placeable (or is the same position); with the corrected rotation, a piece that fits still fits after the move and the turn |
| Level.SpeedUp | src/tetris_level.cpp:196-199 | with no rows cleared the period is unchanged; otherwise SDL_max(50, stepMs - 25) on a uint64: from 75 up it drops by 25, from 25 to 74 it becomes 50, and below 25 the subtraction wraps to stepMs + 2^64 - 25; a period in [50, 500] stays in [50, 500]; the copy at src/main.cpp:546-549 is the same code |
| Level.GravityPeriod | src/tetris_level.cpp:156 | 50 while down is held, stepMs otherwise |
| Level.PeriodAfterFresh | src/tetris_level.h:9-12 | starting from 500, k landings that clear rows give max(50, 500 - 25k) |
| Level.Toggled | src/tetris_level.cpp:16-26 | while the game is over the toggle leaves paused false; otherwise it flips paused |
| Level.ToggleTwice | src/tetris_level.cpp:16-26 | toggling twice in a running game gives back the pause flag |
| Level.Level.constructor | src/tetris_level.h:14-25 | a zero-initialised level: a 16 x 24 grid, both flags false, and score, stepMs, currentStepMs and stepAccumulator 0 |
| Level.Level.Resume | src/tetris_level.cpp:3-6 | paused becomes false |
| Level.Level.Pause | src/tetris_level.cpp:8-14 | paused becomes true unless the game is over |
| Level.Level.TogglePaused | src/tetris_level.cpp:16-26 | paused becomes Toggled of the old flags |
| Level.Level.SetGameOver | src/tetris_level.cpp:28-32 | gameOver is set and paused is cleared |
| Level.Level.ResetLevel | src/tetris_level.cpp:119-125 | paused and gameOver become false, score 0 and stepMs 500; currentStepMs and stepAccumulator are not touched |
| Level.Level.Restart | src/tetris_level.cpp:127-149 | after the reset the grid is empty and the old "next" piece is spawned |
| Level.Level.ApplyLevelInput | src/tetris_level.cpp:151-158 | when paused or over nothing changes; otherwise the piece moves as MovePlayer says and currentStepMs becomes the gravity period for the down button |
| Level.Level.Land | src/tetris_level.cpp:176-218 | the grid becomes the cleared merge; score grows by 100 per row cleared; stepMs speeds up; gameOver is set exactly when row 0 of the new grid is occupied, and paused stays false; the next piece spawns |
| Level.Level.FinishLanding | src/tetris_level.cpp:182-203 | after the rows are cleared: score, speed-up, respawn and the game-over test |
| Level.Level.Tick | src/tetris_level.cpp:168-219 | if the piece fits one row lower it falls by one and nothing else changes (grid, shape, value, next pair, flags, score, period); otherwise it lands as Land says, the new next pair included |
| Level.Level.DoLevelStep | src/tetris_level.cpp:160-221 | dt is always added to the uint64 accumulator (modulo 2^64), even while paused. Once the sum reaches currentStepMs the accumulator resets to 0, and at most one tick runs, only in a running game; without a tick the grid, the whole piece (value and next pair included), flags, score and period are unchanged |
| App.KeyButton | src/main.cpp:250-267 | exactly the left, right, down and space keys reach a button |
| App.PadButtonId | src/main.cpp:295-318 | every gamepad button except Start, Back and the unhandled ones reaches a button; left is reached exactly by the d-pad left, left shoulder and both left paddles, right likewise, down only by the d-pad down, rotate only by South |
| App.KeyFlags | src/main.cpp:233-248 | releases change no flag; R clears both flags; P or Escape flip paused only while the game is not over; nothing but R changes a finished game |
| App.PadFlags | src/main.cpp:275-293 | releases change no flag; Start flips paused while the game runs and restarts a finished game; Back always restarts; every button other than Start and Back changes no flag |
| App.Gated | src/main.cpp:250-267 | a button report reaches its button only while neither flag is set after the event; the other buttons are untouched |
| App.PauseKeysToggle | src/main.cpp:240-246 | the pause keys and Start in a running game are the later revision's toggle |
| App.EventsKeepFlagsExclusive | src/main.cpp:233-293 | no key or gamepad event makes the game paused and over at once |
| App.CountShifted | src/main.cpp:140-142 | the one candidate keeps y and moves x by the right down count minus the left down count |
| App.CountShiftCountsPresses | src/main.cpp:140-142 | when both buttons saw edges, the shift is right presses minus left presses |
| App.CountShiftMatchesPressedOnce | src/main.cpp:138-153 | on windows with at most a single tap per button, the earlier and later move rules pick the same candidate |
| App.HeldButtonRepeats | src/main.cpp:138-153 | a button held with no new edge moves the piece again in the earlier revision and not in the later one |
| App.MovePlayer | src/main.cpp:138-153 | the count-based candidate is kept only if placeable; then a turn attempt when rotate was pressed once |
| App.NewPlayfield | src/main.cpp:360-379 | a fresh zeroed 16 x 24 grid and a fresh piece spawned from the first "next" pair, which fits, with the new pair stored |
| App.App.constructor | src/main.cpp:321-385 | a 16 x 24 empty grid, flags cleared, score 0, stepMs 500, the first piece spawned from the first "next" pair, and the timers at 0 |
| App.App.ResetAppState | src/main.cpp:203-209 | paused and gameOver become false, score 0 and stepMs 500, so 50 <= stepMs <= 500 holds in every reachable state of this revision |
| App.App.Restart | src/main.cpp:211-226 | after the reset the grid is empty and the old "next" piece is spawned |
| App.App.HandleKeyboardEvent | src/main.cpp:228-268 | the flags change as KeyFlags says; the input changes as Gated says; R restarts; no other key touches the grid, score or period, or the piece's shape, position, value and next pair |
| App.App.HandleGamepadButtonEvent | src/main.cpp:270-319 | the flags change as PadFlags says; the input changes as Gated says; Back, and Start on a finished game, restart; nothing else touches the grid, score or period, or the piece's shape, position, value and next pair |
| App.App.Land | src/main.cpp:528-566 | the grid becomes the cleared merge; score grows by 100 per row; stepMs speeds up; gameOver is set from the new row 0 without touching paused; the next piece spawns |
| App.App.FinishLanding | src/main.cpp:531-565 | after the rows are cleared: score, speed-up, respawn and the game-over test |
| App.App.Tick | src/main.cpp:520-567 | a running game either falls one row, when that fits, with nothing else changed (value and next pair included), or lands as Land says, the new next pair included |
| App.App.InputWindow | src/main.cpp:507-516 | at most one move per 100 ms window. At a window boundary the timer restarts and the input is flushed even while paused or over. Between boundaries nothing changes |
| App.App.RunInputWindow | src/main.cpp:509-514 | the move runs only in a running game, and the flush always runs |
| App.App.GravityWindow | src/main.cpp:518-570 | once per period the timer restarts and a running game ticks as Tick says; a paused or finished game, or a call between periods, changes nothing, the piece's value and next pair included |
| App.App.TickIfRunning | src/main.cpp:520-567 | a running game falls one row or lands, as Tick says; a paused or finished game is left unchanged |
| App.App.Update | src/main.cpp:479-571 | the gravity period is fixed before the input window runs (50 while down is held); both timers restart at their boundaries; a paused or finished game keeps its flags, score and period |

## Left out

- Rendering is not modelled: RenderLevel, RenderWorld, RenderPlayer, the score and overlay drawing, and the draw block, FPS counter and colour table of `src/main.cpp`. It is SDL drawing and float layout.
- Asset loading and sounds are not modelled. They are I/O through SDL_image and SDL_mixer.
- The effect pool of `src/tetris_fx.h` is not modelled. It is float-driven and cosmetic.
- The gamepad id, rumble and LED calls are not modelled. They select and drive a device and change no game state.
- The SDL event dispatch of `src/main.cpp` is not modelled. This covers the window-hidden pause, the Q quit key, and SDL_AppQuit. The handlers themselves are modelled, with keys and buttons as datatypes.
- `SDL_GetTicks` and `SDL_rand` are parameters. The clock is assumed monotone, so the timers are required not to exceed `now`.
- InitWorld, InitPlayer and SDL_AppInit are constructors. Their allocation failures are not modelled.
- The grid is an `array2` indexed `[y, x]` rather than a flat buffer. `World.RowMajorIndex` relates it to the row-major layout. The piece keeps its flat buffer.
- Level.Level.DoLevelStep: its `input` parameter is left out. The level step only reads it for the gamepad id of the rumble calls.
- Level.DestroyFilledRows: the int8 row index and the uint8 count do not wrap. The grid height is required to be at most 127 instead.
- Input.Button.SetDown: the uint8 edge counter does not wrap. One more edge is required to fit below 255 instead.
- Level.Level.Land: the uint32 score does not wrap.
- App.App.Land: the uint32 score does not wrap.
- App.App.Update: the uint64 timers do not wrap.
- App.App.Update: its contract does not repeat how the grid and the piece change. InputWindow and GravityWindow each state that, for their own half.
- The as-written rotation check is modelled as a separate predicate (`Piece.RotationAcceptedAsWritten`). The `Player` class uses the intended check; see Findings.
- Piece.Player.Rotate: commits the intended check (the turned shape is placeable), not the source's check of tetris_player.cpp:132-136, which reads the scratch with the wrong stride. So the model never commits a turn that overlaps a settled block, which the source can.
- Piece.TurnedCopy: its scratch buffer has stride n. The source's newData is a 16 x 16 matrix with stride 16; the stride-n layout is the one the intended check needs.
- Piece.RotateKeepsFit: holds of the corrected rotation only. RotationCheckAsWrittenMissesOverlap shows the source breaking it.
- Level.MoveKeepsFit: its "a fitting piece still fits" holds with the corrected rotation only.
- Level.Level.Valid and App.App.Valid include Fits (the piece never overlaps a settled block). This is an invariant of the corrected program only. Every method that ensures Valid, from MovePlayer and ApplyLevelInput to Tick and InputWindow, states it for the corrected rotation.
- Level.DestroyFilledRows: the grid is required to be at least one column wide. On a zero-width grid every row reads as filled, and the source's loop re-examines the same row forever.
- Level.Settle: like DestroyFilledRows, it requires a grid at least one column wide.

## Findings

| source | as written | input that shows it | evidently intended | confidence | as-written member | corrected member |
|---|---|---|---|---|---|---|
| src/tetris_player.cpp:132-136 | The validity check hands the 16 x 16 scratch matrix `newData` to IsPlayerPositionValid as a flat buffer of stride `dim.x`. It therefore tests the turned shape's first row and then stale scratch bytes, not the turned shape. The same code is at src/tetris_player.h:146-150 | The I piece (entry 0) lying at (5, 10) on a 16 x 24 grid whose only block is at (5, 11), with the scratch otherwise zero. The check sees one block at (5, 10), which is empty, and accepts the turn. The standing bar then covers (5, 11) | the turn is committed only when the turned shape is placeable at the same position | not executed | Piece.RotationCheckAsWrittenMissesOverlap | Piece.Player.Rotate |
