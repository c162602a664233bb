# Tetris game-logic core, modelled in Dafny

This project models the game engine of a small p5.js Tetris (`sketch.js`):

- the polyomino value and its transforms: positions, moved copies, and clockwise and anticlockwise turns about a half-integer pivot;
- the tetromino table and `create`;
- the 7-bag piece supply with its Fisher–Yates refill;
- the board: `canPlace`, `canSpawn`, `fix` and `clearLines`;
- the game session: gravity, locking, spawning, moves and turns, the hold slot and the ghost projection;
- the keyboard handler: key bindings, hard drop, and the DAS/ARR/SDI auto-repeat of held keys.

Modules, one per file:

| file | module | models |
|---|---|---|
| `pieces.dfy` | `Pieces` | `Polyomino` as an immutable value. A clone is the value itself. |
| `tetrominoes.dfy` | `Tetrominoes` | the shape, pivot and colour table, and `create` |
| `bag.dfy` | `Bag` | `Factory`: a class whose `bag` field the 7-bag methods update |
| `board.dfy` | `Boards` | `Board`: a class whose `grid` field `fix` and `clearLines` update |
| `game.dfy` | `Engine` | `Game`: a class with the session's fields |
| `input.dfy` | `Input` | `InputHandler`: a class with the `pressed` map |

The host's clock (`millis()`) is replaced by time arguments. `Math.random()` in the shuffle is replaced by a `Draws` argument: six indices, where `draws[i - 1]` is the index in `[0, i]` picked at step `i`.

Rotation pivots such as (1.5, 0.5) are stored doubled, in a subset type whose coordinate sum is even. Every table pivot satisfies this. Under that condition a quarter turn maps whole offsets to whole offsets. `Pieces.TurnsMatchRationalFormula` proves that the integer turn gives exactly what the formula in sketch.js gives over the rationals.

The model keeps these quirks of the code:

- **Hard drop does not lock.** It only moves the piece down; locking waits for the next gravity tick.
- **Game over blocks nothing.** It only sets a flag, mirroring the unused `state` field.
- **Gravity uses a strict test.** It fires only when strictly more than `dropInterval` has elapsed.
- **The ghost is left alone after a successful gravity step.** It is not recomputed then; `Engine.Game.Update` proves it is still correct.
- **The held piece keeps its rotation.** A piece taken out of the hold slot only has its origin reset to (4, 0).

## Model

| member | source | states |
|---|---|---|
| Pieces.Positions | sketch.js:198-200 | a piece has one absolute cell per offset, its origin plus that offset, in the order of the offsets |
| Pieces.Moved | sketch.js:213-218 | the copy keeps type, offsets, colour and pivot, and its origin is shifted by (dx, dy) |
| Pieces.MovedPositions | sketch.js:198-218 | moving shifts every absolute cell by (dx, dy); two moves compose into one; a zero move changes nothing |
| Pieces.RotatedRight | sketch.js:220-229 | a clockwise turn keeps type, colour, pivot, origin and the number of cells |
| Pieces.RotatedLeft | sketch.js:231-240 | an anticlockwise turn keeps type, colour, pivot, origin and the number of cells |
| Pieces.TurnsMatchRationalFormula | sketch.js:222-227 | for a pivot with a whole coordinate sum, the integer turn of an offset equals the rational (cx - dy, cy + dx) and (cx + dy, cy - dx) |
| Pieces.RotateRightThenLeft | sketch.js:220-240 | turning clockwise then anticlockwise gives back exactly the same piece |
| Pieces.RotateLeftThenRight | sketch.js:220-240 | turning anticlockwise then clockwise gives back exactly the same piece |
| Pieces.FourRightTurnsIdentity | sketch.js:220-229 | four clockwise turns give back the same piece |
| Pieces.RotationKeepsCellsDistinct | sketch.js:220-240 | a piece with distinct offsets still has distinct offsets after either turn |
| Pieces.MoveCommutesWithRotation | sketch.js:213-240 | turning a moved piece equals moving the turned piece |
| Tetrominoes.ShapeOf | sketch.js:288-296 | every table shape has four cells |
| Tetrominoes.Create | sketch.js:258-262 | the new piece has the requested type and the table colour, sits at the spawn origin (4, 0) and has four cells |
| Tetrominoes.AllKindsListsEachOnce | sketch.js:288-296 | the list of registered types contains each of I, O, T, S, Z, J, L exactly once |
| Tetrominoes.TableShapesRotateCleanly | sketch.js:288-296 | every table shape, and each of its turns, has four distinct cells |
| Tetrominoes.TableRotatesToIntegers | sketch.js:288-296 | for every table entry, the rational turn of each offset about its fractional pivot is the integer offset the model computes |
| Bag.Swap | sketch.js:276 | the two positions are exchanged and every other position is kept |
| Bag.ShuffleDown | sketch.js:274-277 | the Fisher–Yates steps from index i down to 1, each swapping its index with the drawn index in [0, i], keep the bag's length (Bag.ShuffleDownPermutes gives the multiset) |
| Bag.Shuffled | sketch.js:271-277 | a refill is the seven types in key order shuffled by six steps, and is seven long (Bag.ShuffledIsPermutation gives each type once) |
| Bag.SwapPermutes | sketch.js:276 | a swap keeps the same multiset of types |
| Bag.ShuffleDownPermutes | sketch.js:274-277 | any run of shuffle steps, whatever the indices drawn, is a permutation of its input |
| Bag.ShuffledIsPermutation | sketch.js:271-277 | a refilled bag is a permutation of the seven types and holds each exactly once |
| Bag.ShuffleInPlace | sketch.js:274-277 | the in-place swap loop leaves the array equal to the shuffle function applied to its old contents |
| Bag.Factory.constructor | sketch.js:253-255 | the factory starts with an empty bag |
| Bag.Factory.CreateSevenBag | sketch.js:270-281 | refill when empty; return a piece built by create for the last type; the bag loses that type; the bag never holds a type twice |
| Bag.Draw | sketch.js:270-281 | one call draws from the bag, or from the refill when the bag is empty, and leaves one type fewer |
| Bag.DrawSplits | sketch.js:270-281 | the type handed out plus the bag left behind are exactly the bag drawn from (or the refill) |
| Bag.PopKeepsSubset | sketch.js:279 | popping leaves a sub-multiset of the bag |
| Bag.DrawSeq | sketch.js:270-281 | a run of calls hands out one type per call |
| Bag.DrawSeqStep | sketch.js:279-280 | a call on a non-empty bag hands out its last type |
| Bag.DrawSeqEmptiesBag | sketch.js:270-281 | a non-empty bag is handed out back to front, after which the bag is empty |
| Bag.DrawSeqFromEmpty | sketch.js:270-281 | from an empty bag, the first seven calls hand out one refill back to front |
| Bag.ReversePermutes | sketch.js:279 | handing out a bag back to front keeps its multiset |
| Bag.SevenBagWindows | sketch.js:270-281 | from an empty bag, every aligned run of seven calls hands out a permutation of the seven types, whatever the shuffles drew |
| Bag.SevenBagEachOnce | sketch.js:270-281 | every aligned run of seven calls from an empty bag hands out each type exactly once |
| Bag.RefillsFor | sketch.js:271-277 | the refills of any run of calls are each a permutation of the seven types |
| Boards.EmptyGrid | sketch.js:319-323 | createGrid has `height` rows of `width` cells, all empty |
| Boards.Board.constructor | sketch.js:313-317 | a new board has the given size and an empty grid |
| Boards.Fits | sketch.js:348-354 | a list of cells that fits lies inside the side walls and above the floor |
| Boards.FitsIff | sketch.js:348-354 | canPlace's early-exit loop is true exactly when every cell is inside the side walls, above the floor, and either above the top row or on an empty cell |
| Boards.FitsOnEmpty | sketch.js:348-354 | on an empty grid a piece fits exactly when its cells are within the walls and above the floor |
| Boards.CanPlaceIff | sketch.js:348-354 | canPlace on a board accepts a piece exactly when each of its absolute cells is inside the walls, above the floor, and above the top row or on an empty cell |
| Boards.Board.CanSpawn | sketch.js:356-358 | canSpawn is the same test as canPlace |
| Boards.Stamp | sketch.js:325-337 | the grid after fix keeps its shape |
| Boards.Board.Fix | sketch.js:325-337 | after the loop, the grid is the old grid with the piece's in-grid cells set to its type and colour and every other cell unchanged |
| Boards.FixBlocksPlacement | sketch.js:325-354 | after a piece is fixed, it can no longer be placed where it was, unless every one of its cells is above the top row |
| Boards.KeepOpen | sketch.js:340-341 | the filter keeps one row for each row that is not full: kept plus full rows make up the grid |
| Boards.CountFull | sketch.js:340-341 | the count of full rows is at most the number of rows, and is zero exactly when no row is full |
| Boards.KeepOpenSplits | sketch.js:340-341 | the filter keeps the non-full rows at their width, and kept plus removed rows add up to the height |
| Boards.Cleared | sketch.js:339-346 | the grid after clearLines keeps its shape |
| Boards.ClearedShape | sketch.js:339-346 | one empty row per full row sits on top, and the non-full rows follow in their original order |
| Boards.ClearNoFullRows | sketch.js:339-346 | with no full row, nothing is removed and the grid is unchanged |
| Boards.ClearIdempotent | sketch.js:339-346 | on a board at least one column wide, a second clearLines removes nothing and changes nothing |
| Boards.Board.ClearLines | sketch.js:339-346 | the new grid is the cleared grid, and the result is the number of full rows |
| Boards.LandingFits | sketch.js:178-184 | if the piece fits, its landing position fits too |
| Boards.LandingExists | sketch.js:178-184 | a piece with at least one cell has a landing position: the drop loop always ends |
| Boards.LandingUnique | sketch.js:178-184 | a piece has at most one landing position (with Boards.LandingExists: exactly one when it has a cell) |
| Boards.LandingAfterStepDown | sketch.js:117-129 | a successful step down leaves the landing position unchanged |
| Engine.AtSpawn | sketch.js:172-173 | the piece moves to origin (4, 0) and keeps its rotation |
| Engine.Project | sketch.js:178-184 | the projection loop ends on the piece's landing position: same column and offsets, at or below the piece, every row passed fits, and one row further does not |
| Engine.Game.constructor | sketch.js:101-115 | the first two bag draws become current and next; the hold slot is empty; the ghost is accurate; the interval is 1000 and the last drop time is now |
| Engine.Game.UpdateGhost | sketch.js:178-184 | the ghost becomes the current piece's landing position |
| Engine.Game.Move | sketch.js:131-138 | the move is committed, and true returned, exactly when the moved piece can be placed; a piece that could be placed still can |
| Engine.Game.RotateRight | sketch.js:140-145 | the clockwise turn is committed exactly when it can be placed; a piece that could be placed still can |
| Engine.Game.RotateLeft | sketch.js:147-152 | the anticlockwise turn is committed exactly when it can be placed; a piece that could be placed still can |
| Engine.Game.SpawnNext | sketch.js:154-159 | the queued piece becomes current; the next type comes from the bag; holding is allowed again; the ghost is accurate |
| Engine.Game.SwapHold | sketch.js:161-176 | without permission nothing changes; with a held piece the two swap and the piece returns to the spawn origin; with an empty slot the piece is stashed and the queued piece spawns; holding is then disallowed |
| Engine.Game.Lock | sketch.js:120-126 | the grid becomes the cleared grid after fixing; the queued piece spawns; game over is flagged exactly when it cannot be placed |
| Engine.Game.Fall | sketch.js:119-127 | the piece steps down if that fits, otherwise it locks; the ghost stays accurate |
| Engine.Game.Update | sketch.js:117-129 | nothing happens unless the first clock reading is strictly more than the interval after the last tick; otherwise the second reading is recorded as the tick and the piece steps down or locks; hold and interval never change |
| Input.LowerChar | sketch.js:456 | upper-case letters map to lower case, and every other character is unchanged |
| Input.ToLower | sketch.js:456 | the result has the same length and no upper-case letters |
| Input.ToLowerIdempotent | sketch.js:456 | lower-casing a lower-case name changes nothing, so lower-casing twice equals lower-casing once |
| Input.ActionOf | sketch.js:443-451 | a key that is bound to an action is a single lower-case character |
| Input.KeyOf | sketch.js:443-451 | each action's key is a single lower-case character |
| Input.BindingsRoundTrip | sketch.js:443-451 | the seven keys and the seven actions correspond one to one |
| Input.ActedKeepsFit | sketch.js:444-449 | a move, turn or drop from a position that fits ends on a position that fits |
| Input.HardDropMeetsGhost | sketch.js:444 | a hard drop ends exactly on the ghost shown before the key was pressed |
| Input.HardDropSettles | sketch.js:444-446 | after a hard drop the piece is its own ghost, and another w or s press leaves it in place |
| Input.StepBackRestores | sketch.js:445-447 | a sideways step that succeeded is undone by the opposite step |
| Input.TurnBackRestores | sketch.js:448-449 | a turn that succeeded is undone by the opposite turn |
| Input.RepeatDue | sketch.js:426-429 | a held a or d is due once at least 150 ms have passed since it was pressed and at least 30 ms since it last acted |
| Input.SoftDropDue | sketch.js:435-436 | a held s is due once at least 50 ms have passed since it last acted |
| Input.RepeatCadence | sketch.js:424-438 | a key pressed and handled at t0 first repeats at t0 + 150 (s: t0 + 50); after a repeat at t1 it does not repeat before t1 + 30 (s: t1 + 50) |
| Input.Repeated | sketch.js:419-440 | an auto-repeat pass keeps the set of held keys, and changes nothing when no key is due |
| Input.RepeatedPiece | sketch.js:422-438 | the piece after a pass: a due a, then a due d, then a due s each try one step, judged on the table before the pass; a piece that fits still fits, and with no key due it stays put |
| Input.RepeatPassMoves | sketch.js:419-440 | the three repeat checks compose: the table becomes the pass's table, the piece ends where RepeatedPiece puts it, the ghost is accurate if any key fired, and next, hold and bag are kept |
| Input.RepeatedStamps | sketch.js:419-440 | an auto-repeat pass keeps the held keys and their press times; it sets the last action time of exactly the due keys among a, d and s to now |
| Input.InputHandler.constructor | sketch.js:409-417 | the handler starts with no held key |
| Input.InputHandler.HardDrop | sketch.js:444 | repeated moves down leave the piece at its landing position |
| Input.InputHandler.Shift | sketch.js:443-449 | every action other than hold moves the current piece as its binding says, and nothing else |
| Input.InputHandler.Handle | sketch.js:442-453 | the bound action is applied and the ghost recomputed; only hold touches next, the hold slot and the bag |
| Input.InputHandler.OnKeyDown | sketch.js:455-467 | the key is lower-cased; its press time is set only if it was not already held; it is handled; its last action time is the second clock reading |
| Input.InputHandler.OnKeyUp | sketch.js:469-472 | the lower-cased key is no longer held, and every other entry is kept |
| Input.InputHandler.Repeat | sketch.js:422-438 | a held key fires exactly when it is due; on firing it is handled and stamped with now; otherwise nothing changes; a placeable piece stays placeable |
| Input.InputHandler.Update | sketch.js:419-440 | the held-key table becomes the auto-repeat pass; the piece ends where the due a, d, s moves take it in that order, and a released key moves nothing; the ghost is accurate once any key fired; next, hold and bag are kept; a placeable piece stays placeable |

## Left out

- p5 glue (`setup`, `draw`, `keyPressed`, `keyReleased`) and canvas sizing (`createDisplay`, `windowResized`), sketch.js:1-46: window I/O and floating-point layout.
- `Renderer`, sketch.js:361-406: drawing calls only.
- `GameManager` and the game states, sketch.js:48-98: they only forward calls to `Game` and `Renderer`.
- `Factory.createRandom`, sketch.js:264-268: a single draw from `Math.random` that the rest of the core never uses.
- `Pentomino`, `Hexomino` and their factories, sketch.js:249-250 and 309-310: they are empty. Colours are opaque strings.
- `millis()` and `Math.random()` are foreign calls. They become time arguments and `Draws` arguments.
  - `OnKeyDown` and `Engine.Game.Update` each take their two clock readings as two arguments.
  - Times are whole milliseconds (`int`); `millis()` may return fractions of a millisecond.
  - Auto-repeat never presses the hold key, so it hands `Handle` fixed draws that it never consults.
- A type name missing from the table cannot occur: types are an enumeration.
- Input.ToLower: lower-cases ASCII A–Z only, not the full Unicode case mapping of `toLowerCase`.
- Input.LowerChar: the per-character map ToLower is built from; it covers ASCII A–Z only, for the same reason.
- The `forEach` over `["a", "d"]` in `InputHandler.update` is written as two calls of one helper, in the same order.
- Engine.Game.constructor: the ghost is computed before the object is complete instead of by an `updateGhost` call. It is the same projection loop (`Engine.Project`).
