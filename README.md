# Falling-block engine of app.js, modelled in Dafny

This project models the game logic of a browser Tetris clone (`app.js`). The
modelled parts are:

- the piece catalog (seven kinds, four rotation layouts each);
- the seven-bag random generator;
- the 10×20 board and its collision test;
- the current piece, the next queue of five kinds and the hold slot;
- the player actions: move, rotate with wall kicks, soft drop, hard drop,
  hold and pause;
- locking, which writes the cells, clears full rows bottom-up, scores and
  levels up;
- the gravity step of the animation loop;
- the landing ("ghost") search used when the board is drawn.

The model has these modules:

- `Tetrominoes` (`tetrominoes.dfy`): the catalog, colours and piece geometry.
- `Bag` (`bag.dfy`): the class `BagRandom`. Its `bag` field is refilled with a
  shuffled copy of the catalog and shortened by its last kind on each draw. A
  ghost field `drawn` records the kinds handed out since the last refill.
- `Board` (`board.dfy`): the grid as a sequence of rows, `collide`,
  `createMatrix`, placing a piece, the line-clear loop and the ghost search.
- `Rules` (`rules.dfy`): each operation as a function on a `Session`. A
  `Session` is a snapshot of every `GameState` field except the generator.
  The lemmas here state what the rules guarantee. The main one is the session
  invariant `Inv`:
  - the board is 20×10 with no full row;
  - the current piece does not collide;
  - the queue holds five kinds;
  - `level == lines / 10 + 1`;
  - `dropMs` is the interval for `level`.
- `Game` (`game.dfy`): the class `GameState`. Its methods update the fields as
  the source does. The player actions (`TryMove`, `TryRotate`, `SoftDrop`,
  `HardDrop`, `HoldPiece`, `TogglePause`, `LockPiece`) require and keep the
  invariant, and each is proved to produce exactly the `Rules` function of
  the old state. The helpers they are split into (`WriteCells`, `AwardLines`,
  `RaiseLevel`, `SettlePiece`, `NextPiece`, `SwapHeld`, `StoreHeld`,
  `Respawn`) require only what they use. Each of them is proved against the
  `Rules` function of its part, except `TakeNext` and `WriteCells`, whose
  contracts state the queue and the board directly.
- `Loop` (`loop.dfy`): the page globals `game`, `acc` and `lastTime` as the
  class `Driver`. It holds one animation frame, the gravity step, the keydown
  dispatch and `resetGame`.

A rule that may draw a kind from the bag takes that kind as a parameter `k`.
A predicate beside each such rule says when it draws (`LockDraws`,
`HardDropDraws`, `HoldDraws`, `GravityDraws`, `FrameDraws`, `PressDraws`).
The `...UsesKind` lemmas prove that `k` then joins the back of the queue,
and that otherwise the result does not depend on `k`. The class methods pass
`Drawn()`, the back of the new queue. Their contracts also say what happened
to the bag. When the rule draws, the bag went through exactly one call of
`next` that returned `Drawn()` (`Bag.OneDraw`). When the rule does not draw,
the bag is unchanged.

Design notes:

- Board cells hold the kind that locked there instead of its colour string.
  `Color` is injective (`ColorInjective`) and every colour is non-empty, so
  the source's truthiness tests on cells match `Some?`.
- `Math.random` is a nondeterministic choice of the swap index `j` with
  `0 <= j <= i`. The shuffle is proved correct for every choice.
- New pieces spawn at x = 3 (app.js:115), one column left of the centre of
  the 10-column board. The model follows the code.
- The key handlers check neither `paused` nor `over` (`Loop.MoveWhilePaused`).
  `lockPiece` does not test the new piece for collision. The level check runs
  only when rows were cleared. All three are modelled as written.
- The collision check of `holdPiece` is modelled. It can never fire, because a
  piece at the spawn point never collides (`Board.SpawnNeverCollides`).
- `lastTime` is not refreshed while the game is paused. The first frame after
  resuming therefore counts the paused time as play time and adds it to
  `acc` (`Loop.PauseSpansFrame`).

## Model

| member | source | states |
|---|---|---|
| Tetrominoes.AllKinds | app.js:9-73 | the catalog's kind list has seven entries: each kind once (multiset equals the catalog) |
| Tetrominoes.AllKindsOnce | app.js:9-73 | every kind is in the list and occurs in the catalog exactly once |
| Tetrominoes.Color | app.js:9-73 | each kind's colour is a seven-character string starting with `#` |
| Tetrominoes.ColorInjective | app.js:9-73 | no two kinds share a colour, so a cell's colour identifies the kind that locked there |
| Tetrominoes.LayoutShaped | app.js:9-73 | every layout of the table has four distinct offsets inside the 4×4 box, listed with non-decreasing y; rotation 0 uses only the top two rows |
| Tetrominoes.Shape | app.js:120 | `shape()`: the layout for the piece's rotation, with the quantified forms of the facts above |
| Tetrominoes.Layout | app.js:9-73 | definition: the offsets of the table, per kind and rotation; `LayoutShaped` states their shape |
| Tetrominoes.Spawn | app.js:112-117 | definition: a new piece of a kind at (3, -2) in rotation 0; `SpawnAboveBoard` and `Board.SpawnNeverCollides` state what it guarantees |
| Tetrominoes.Cells | app.js:121 | definition of `cells()`: each layout offset added to the piece's origin; `FirstCellHighest` and `SpawnAboveBoard` are the facts proved about it |
| Tetrominoes.Rotated | app.js:122-126 | definition of `rotated(dir)`: same kind and origin, rotation (rot + (dir > 0 ? 1 : 3)) mod 4; `RotatedInverse` and `RotatedFourTimes` are the facts proved about it |
| Tetrominoes.RotatedInverse | app.js:122-126 | turning one way and then the other gives back the piece |
| Tetrominoes.RotatedFourTimes | app.js:122-126 | four turns in one direction give back the piece |
| Tetrominoes.FirstCellHighest | app.js:9-73 | the first cell of a piece is its highest, so some cell has y < 0 iff the first one does |
| Tetrominoes.SpawnAboveBoard | app.js:112-117 | every cell of a new piece at (3, -2), rotation 0, has y < 0 |
| Bag.BagRandom.constructor | app.js:79 | the bag starts empty |
| Bag.OneDraw | app.js:80-90 | definition of one call of `next`: pop the last kind, or refill the emptied bag with a shuffle of the catalog and then pop |
| Bag.BagRandom.Next | app.js:80-90 | `next`: with kinds left it pops the last one; from an empty bag it refills seven kinds, shuffles and pops, leaving six; drawn kinds and bag always make up the catalog |
| Bag.BagRandom.Refill | app.js:81-87 | the refilled, shuffled bag holds each kind exactly once |
| Bag.Shuffle | app.js:83-86 | the Fisher-Yates swap loop keeps the length and the multiset of kinds for every choice of j |
| Bag.SwapKeepsKinds | app.js:85 | one swap keeps the multiset |
| Bag.PopKeepsCycle | app.js:89 | a pop moves the last kind from the bag to the drawn ones; together they still make up the catalog, and the drawn kinds stay distinct |
| Bag.CompleteCycle | app.js:80-90 | once seven kinds have been drawn since a refill, the bag is empty and every kind was drawn exactly once |
| Bag.CycleOfBag | app.js:80-90 | a `BagRandom` that has handed out seven kinds since its last refill is empty, and those seven are the catalog, each kind once |
| Bag.SubBagDistinct | app.js:80-90 | kinds drawn from one bag are pairwise different |
| Bag.DrawnDistinct | app.js:80-90 | the kinds drawn in the current cycle are pairwise different |
| Board.CreateMatrix | app.js:93-97 | `createMatrix`: rows × cols cells, each holding the fill value |
| Board.EmptyGrid | app.js:131 | the starting board is 20×10 |
| Board.Collides | app.js:102-109 | definition: some cell with y ≥ 0 is off the board at the sides or bottom, or on an occupied cell; `Board.Collide` is proved equal to it |
| Board.Blocked | app.js:104-106 | definition: a cell with y ≥ 0 that is left of, right of or below the board, or occupied; `Board.Collide` is proved against it through `Collides` |
| Board.Collide | app.js:102-109 | `collide` returns true iff some cell with y ≥ 0 lies left, right or below the board or on an occupied cell; cells above the board are skipped whatever their x |
| Board.SpawnNeverCollides | app.js:112-117 | a new piece at the spawn point never collides, whatever the board |
| Board.AboveFloor | app.js:102-109 | a piece that does not collide has its origin above the floor |
| Board.PlaceableCells | app.js:272-276 | a piece that fits with every cell on the board covers four in-bounds empty cells |
| Board.PlaceCellsSpec | app.js:273-276 | writing cells sets exactly those cells to the kind and leaves every other cell alone |
| Board.PlaceCells | app.js:273-276 | the board stays 20×10 after cells are written |
| Board.Place | app.js:273-276 | writing a piece keeps the board 20×10 |
| Board.Full | app.js:281 | definition: every column of the row is occupied; `ClearFullSpec` and `KeepMembers` use it |
| Board.FullCount | app.js:279-285 | definition of the `cleared` counter: the number of full rows; `ClearLines` is proved to count it and `PlaceClearsAtMostFour` bounds it |
| Board.Keep | app.js:279-286 | the surviving rows number the rows minus the full ones |
| Board.KeepMembers | app.js:279-286 | a row survives the clear exactly when it is not full |
| Board.ClearFull | app.js:279-286 | definition: as many blank rows as there are full rows, above the non-full rows in their old order; `ClearFullSpec` states its properties and `ClearLines` is proved equal to it |
| Board.ClearFullSpec | app.js:279-286 | after clearing, the board is 20×10, no row is full, the top FullCount rows are blank, and the survivors follow in their old order |
| Board.ClearFullNoop | app.js:279-286 | a board without full rows is left as it is and nothing is counted |
| Board.ClearLines | app.js:278-286 | the labelled bottom-up loop with splice, unshift and the y++ rescan gives exactly the cleared board and counts the full rows |
| Board.PlaceClearsAtMostFour | app.js:272-286 | locking a piece on a board without full rows fills at most four rows |
| Board.RowUntouched | app.js:273-276 | rows the piece does not cover are left unchanged by locking |
| Board.DropFrom | app.js:254-257 | definition: the landing position, found by moving down while the next row fits; `DropFromLands` and `DropFromPath` state its properties |
| Board.DropFromLands | app.js:254-257 | the ghost search from a fitting position: the piece straight below, never higher, fitting, and colliding one row lower |
| Board.DropFromPath | app.js:254-257 | every row passed on the way down fits |
| Board.DropFromStep | app.js:256 | a fitting step down keeps the landing position; a colliding one means the piece has landed |
| Board.GhostPosition | app.js:254-257 | the render loop "step down until collision, then back one row" computes the landing position |
| Rules.LineScore | app.js:288-290 | table [0, 100, 300, 500, 800]: zero exactly for no rows, 800 for four, at least 100 per row |
| Rules.LineScoreIncreasing | app.js:289 | more rows at once score strictly more |
| Rules.DropInterval | app.js:292 | definition: max(120, 1000 − (level − 1)·80); `DropIntervalBounds` states its properties |
| Rules.DropIntervalBounds | app.js:292 | max(120, 1000 − (level − 1)·80): 1000 at level 1, within [120, 1000], non-increasing in the level, 120 exactly from level 12 |
| Rules.InvLevel | app.js:291-292 | under the invariant, (level − 1)·10 ≤ lines < level·10 |
| Rules.Initial | app.js:130-143 | definition: the fields of a new `GameState` for a first kind and a queue |
| Rules.InitialInv | app.js:130-143 | a new game satisfies the invariant and is neither paused nor over |
| Rules.Dequeue | app.js:145-149 | definition of `takeNext` on the session: the queue front spawns and the drawn kind joins the back; `DequeueSpec` states its properties |
| Rules.DequeueSpec | app.js:145-149 | `takeNext`: the new piece is the old front, the queue keeps its length and moves up by one, the drawn kind goes to the back, nothing else changes |
| Rules.Award | app.js:287-293 | definition of the scoring block: nothing for no rows; otherwise score and lines, then `LevelUp`; `AwardSpec` and `AwardLevel` state its properties |
| Rules.LevelUp | app.js:291-292 | definition of the level check: one level up with its interval once lines reach level × 10 |
| Rules.AwardSpec | app.js:287-293 | score rises by table × old level, lines by the rows cleared; only score, lines, level and dropMs change |
| Rules.AwardLevel | app.js:291-292 | at most four rows cleared keep level = lines / 10 + 1 and dropMs its interval; the level rises by at most one |
| Rules.Lock | app.js:272-298 | definition of `lockPiece` on the session: over when some cell is above the board, otherwise `Settle`, `Dequeue` and hold allowed again; the lemmas below state its properties |
| Rules.AboveTop | app.js:274 | definition: some cell of the piece has y < 0; `LockAboveTop` states what locking then does, and `Tetrominoes.FirstCellHighest` shows the first cell decides it |
| Rules.LockDraws | app.js:272-295 | definition: `lockPiece` draws exactly when no cell is above the board, since only then does it reach `takeNext` |
| Rules.LockUsesKind | app.js:272-295 | when a lock draws, the drawn kind joins the back of the shifted queue; when it does not, the result is the same for every kind |
| Rules.LockAboveTop | app.js:273-274 | locking a piece with a cell above the board sets over and changes nothing else |
| Rules.LockOnBoard | app.js:272-293 | otherwise the cells are written, at most four rows clear, and score and lines rise by the table entry × level and the row count |
| Rules.Settle | app.js:273-293 | definition: the piece written, the full rows cleared and the award for them; `SettleSpec` states its properties |
| Rules.SettleSpec | app.js:273-293 | writing, clearing and scoring change only board, score, lines, level and dropMs |
| Rules.LockTakesNext | app.js:294-295 | after locking on the board the next piece is the queue front, the drawn kind joins the queue, hold is allowed again, and no collision test is made |
| Rules.LockPreservesInv | app.js:272-298 | locking keeps the invariant whichever kind is drawn |
| Rules.LockElapsed | app.js:272-298 | locking leaves the play time alone |
| Rules.Move | app.js:300-307 | definition of `tryMove` on the session; `MoveSpec` states its properties |
| Rules.MoveSpec | app.js:300-307 | `tryMove` succeeds iff the shifted piece fits; a failed move changes nothing; kind and rotation never change |
| Rules.MovePreservesInv | app.js:300-307 | a move keeps the invariant |
| Rules.Kicked | app.js:313-316 | definition: the rotated piece moved by the i-th kick; the facts about the kicks are in `FirstFitSpec` and `RotateSpec` |
| Rules.KickHits | app.js:313-319 | definition: the collision result of each kick, in order; used by `FirstFitSpec` |
| Rules.FirstMiss | app.js:315-320 | any index found lies in range |
| Rules.FirstMissSpec | app.js:315-320 | nothing is found iff every entry collides; otherwise the first non-colliding entry |
| Rules.FirstFit | app.js:313-321 | definition: the placement of the first kick that does not collide, if any; `FirstFitSpec` states its properties |
| Rules.FirstFitSpec | app.js:309-322 | no kick fits iff all six collide; otherwise the first kick in the order (0,0), (1,0), (-1,0), (2,0), (-2,0), (0,-1) that fits |
| Rules.Rotate | app.js:309-322 | definition of `tryRotate` on the session: the first fitting kick, or no change; `RotateSpec` states its properties |
| Rules.RotateSpec | app.js:309-322 | `tryRotate` fails iff every kick collides, and then changes nothing; on success, the piece keeps its kind, turns one step, fits, and sits at the first fitting kick |
| Rules.RotatePreservesInv | app.js:309-322 | a rotation keeps the invariant |
| Rules.SoftDropped | app.js:400 | definition of the soft drop (down key, and the button at line 429): a successful one-row move scores one point; `SoftDropSpec` states its properties |
| Rules.SoftDropSpec | app.js:400 | soft drop (down key, and the button at line 429) moves down one row and adds one point, or changes nothing; it keeps the invariant |
| Rules.Dropped | app.js:324-330 | the dropped piece fits, and board and queue are untouched |
| Rules.DroppedSpec | app.js:324-330 | the piece falls straight down through fitting rows to where one more row collides; score rises by exactly 2 × rows fallen; nothing else changes |
| Rules.HardDropped | app.js:324-330 | definition of `hardDrop`: `Dropped` then `Lock`; `DroppedSpec`, `HardDropUsesKind` and `HardDropPreservesInv` state its properties |
| Rules.HardDropPreservesInv | app.js:324-330 | a hard drop keeps the invariant |
| Rules.HardDropDraws | app.js:324-330 | definition: a hard drop draws exactly when the dropped piece locks on the board |
| Rules.HardDropUsesKind | app.js:324-330 | when a hard drop draws, the drawn kind joins the back of the shifted queue; otherwise the result is the same for every kind |
| Rules.Hold | app.js:332-343 | definition of `holdPiece` on the session: nothing once hold is used, otherwise `Swapped` then `Respawned`; `HoldSpec` states its properties |
| Rules.Swapped | app.js:334-339 | definition of the store-or-swap part of `holdPiece`; `HoldSpec` states its properties |
| Rules.Respawned | app.js:340-342 | definition of the end of `holdPiece`: spawn point, rotation 0, over on a collision, hold used up; `HoldSpec` states its properties |
| Rules.HoldDraws | app.js:332-337 | definition: `holdPiece` draws exactly when hold is allowed and the slot is empty |
| Rules.HoldUsesKind | app.js:332-337 | when a hold draws, the drawn kind joins the back of the shifted queue; otherwise the result is the same for every kind |
| Rules.HoldSpec | app.js:332-343 | a second hold before the next lock changes nothing; otherwise the held kind becomes the old current kind, the new piece (held kind or queue front) is at (3, -2) rotation 0, the queue moves up only when hold was empty, and over is never set; score, lines, level, board, pause and time are unchanged |
| Rules.HoldPreservesInv | app.js:332-343 | holding keeps the invariant |
| Rules.Toggled | app.js:443-448 | definition of `togglePause` on the session; `TogglePauseSpec` states its properties |
| Rules.TogglePauseSpec | app.js:443-448 | pausing twice is the identity; nothing changes once over; otherwise only paused flips |
| Rules.Gravity | app.js:357-363 | definition of the gravity step of `loop` on the session and acc; `GravitySpec` states its properties |
| Rules.GravityDraws | app.js:359-363 | definition: a gravity step draws exactly when it runs, acc reaches dropMs, the move down collides and the piece locks on the board |
| Rules.GravityUsesKind | app.js:359-363 | when a gravity step draws, the drawn kind joins the back of the shifted queue; otherwise the result is the same for every kind |
| Rules.GravitySpec | app.js:357-363 | a frame changes nothing while paused or over; otherwise elapsed grows by dt, and either acc grows and stays below dropMs, or acc restarts and the piece falls one row or locks; the invariant is kept |
| Rules.GravityElapsed | app.js:359 | a running frame adds exactly dt to the play time |
| Game.FirstDraws | app.js:133-134 | a new game draws six kinds from one bag: the first piece and five queued ones, all different |
| Game.DrawOne | app.js:89 | a draw from a non-empty bag appends the kind to the drawn ones and shortens the bag by one |
| Game.GameState.constructor | app.js:130-143 | `new GameState()`: the initial session from the first draw and a queue of five; these six are exactly the bag's draws so far, all different; invariant holds |
| Game.GameState.TakeNext | app.js:145-149 | returns a new piece of the front kind, shifts the queue and pushes the kind returned by exactly one call of `next` on the bag |
| Game.GameState.TryMove | app.js:300-307 | the fields become exactly `Move` of the old state, and the result is its success flag |
| Game.GameState.TryRotate | app.js:309-322 | the loop over the kicks gives exactly `Rotate` of the old state |
| Game.GameState.WriteCells | app.js:273-276 | the cell loop of `lockPiece` writes either no cell and sets over, or all four cells and leaves over alone |
| Game.GameState.AwardLines | app.js:287-293 | the scoring block gives exactly `Award` |
| Game.GameState.RaiseLevel | app.js:291-292 | the level check gives exactly `LevelUp` |
| Game.GameState.SettlePiece | app.js:273-293 | writing, clearing and scoring give exactly `Settle`, or set over |
| Game.GameState.NextPiece | app.js:294-295 | takes the next piece and allows hold again, with exactly one call of `next` on the bag |
| Game.GameState.LockPiece | app.js:272-298 | `lockPiece` gives exactly `Lock` of the old state with the drawn kind; invariant kept; when `LockDraws`, the bag went through one call of `next` that returned that kind, otherwise it is unchanged |
| Game.GameState.DropDown | app.js:325-326 | the `while(tryMove(0,1)) dist++` loop leaves the piece at the ghost search's landing position, dist rows lower |
| Game.GameState.HardDrop | app.js:324-330 | `hardDrop` gives exactly `HardDropped`: dropped, 2 points per row, locked; one call of `next` when `HardDropDraws`, otherwise the bag is unchanged |
| Game.GameState.SoftDrop | app.js:400 | gives exactly `SoftDropped` |
| Game.GameState.SwapHeld | app.js:334-339 | the store-or-swap part of `holdPiece` gives exactly `Swapped`; one call of `next` with an empty slot, otherwise the bag is unchanged |
| Game.GameState.StoreHeld | app.js:335-336 | the empty-slot case: the current kind is stored and the next piece taken, with exactly one call of `next` |
| Game.GameState.Respawn | app.js:340-342 | the end of `holdPiece` gives exactly `Respawned`: spawn point, rotation 0, over on a collision, hold used up |
| Game.GameState.HoldPiece | app.js:332-343 | `holdPiece` gives exactly `Hold` of the old state; one call of `next` when `HoldDraws`, otherwise the bag is unchanged |
| Game.GameState.TogglePause | app.js:443-448 | `togglePause` gives exactly `Toggled` |
| Loop.Frame | app.js:356-363 | definition of one frame of `loop` on the session, acc and lastTime; `FrameSpec` states its properties |
| Loop.FrameDraws | app.js:356-363 | definition: a frame draws exactly when its gravity step does |
| Loop.FrameUsesKind | app.js:356-363 | when a frame draws, the drawn kind joins the back of the shifted queue; otherwise the result is the same for every kind |
| Loop.FrameSpec | app.js:356-363 | a paused or finished frame changes nothing, not even lastTime; otherwise lastTime becomes ts and the gravity step runs with the time since the last frame (0 on the first); invariant kept |
| Loop.PauseSpansFrame | app.js:357-359 | frames while paused keep lastTime, so the first frame after resuming counts the paused time as play time |
| Loop.Pressed | app.js:391-405 | definition of the keydown handler on the session; `PressedPreservesInv` states its properties |
| Loop.PressDraws | app.js:391-405 | definition: a key press draws exactly when it is not a repeat and is a hard drop or a hold that draws |
| Loop.PressedUsesKind | app.js:391-405 | when a key press draws, the drawn kind joins the back of the shifted queue; otherwise the result is the same for every kind |
| Loop.PressedPreservesInv | app.js:391-405 | every key keeps the invariant; repeats and unknown keys change nothing; only the pause key changes paused |
| Loop.MoveWhilePaused | app.js:398 | a move key moves the piece of a paused game when the target fits |
| Loop.Driver.constructor | app.js:197-199 | start-up: a new game, lastTime 0, acc 0; the first piece and the queue are the bag's first six draws, all different |
| Loop.Driver.Tick | app.js:356-363 | `loop(ts)` gives exactly `Frame` of the old globals; one call of `next` when `FrameDraws`, otherwise the bag is unchanged |
| Loop.Driver.Advance | app.js:359-363 | the gravity step of a running frame gives exactly `Gravity` of the old state and acc; one call of `next` when `GravityDraws`, otherwise the bag is unchanged |
| Loop.Driver.Fall | app.js:361-362 | `if(!tryMove(0,1)) lockPiece()`: one row down with the bag unchanged, or exactly `Lock`, with one call of `next` when `LockDraws` |
| Loop.Driver.Press | app.js:391-405 | the keydown handler gives exactly `Pressed` of the old state; one call of `next` when `PressDraws`, otherwise the bag is unchanged |
| Loop.Driver.PressDrawing | app.js:402-403 | the space and C keys: exactly `Pressed`, with one call of `next` when `PressDraws`, otherwise the bag is unchanged |
| Loop.Driver.PressOther | app.js:396-404 | the keys that never draw: exactly `Pressed`, and the bag is not touched |
| Loop.Driver.Reset | app.js:373-377 | `resetGame`: a new game with lastTime and acc cleared; the first piece and the queue are the bag's first six draws, all different |

## Left out

- The DOM lookups, overlays and event binding (app.js:153-192, app.js:380-441) are UI only. The model keeps the keydown dispatch and notes that the on-screen buttons call the same actions.
- Canvas sizing and drawing are presentation code with floating-point scaling. This covers `resizeCanvas`, `drawCell`, the painting in `render`, the mini grids, and the `resizeCanvas()` call inside `lockPiece`.
- The HUD text and the game-over panel (app.js:345-354, app.js:365-370) are display only.
- Audio, settings, `localStorage`, the `playSfx` calls and the `tryRotate` wrapper that adds a sound (app.js:456-504) have side effects only. The model uses the original `tryRotate`.
- Viewport scaling (app.js:509-521) is floating point and DOM.
- `requestAnimationFrame` scheduling is left out; `loop` is one call of `Driver.Tick` per frame.
- Timestamps are fractional milliseconds in the browser. The model takes them as integers.
- `Math.random` is foreign code. The model replaces it with a nondeterministic choice of the swap index.
- `cloneMatrix` is not called by the engine.
- Loop.Driver.Tick: requires that timestamps never decrease, as requestAnimationFrame guarantees. The source does not check this.
- Board.PlaceCells: the model only writes cells on the board. In the source, a cell with y ≥ 20 would make `game.board[py]` undefined, and the write would throw a TypeError. A cell with 0 ≤ y < 20 and x off the board would add an extra property to that row's array. Neither can happen here: the invariant keeps the current piece from colliding, so every written cell is on the board.
- Bag.BagRandom.Next: each `next` is proved against the ghost record of the kinds drawn since the last refill. The actual order of a shuffle is not determined, because the swap indices are arbitrary.
