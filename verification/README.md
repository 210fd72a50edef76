# Battleship rule engine — a Dafny model

This project models the rules of a browser battleship game (a 10 × 10 board
for each side, ten ships per fleet). It covers five parts of the game:

- the board's grid queries: cell lookup, the safety test used for
  placement, and the diagonal and surrounding-cell lists (`BoardData`);
- fleet placement (`Ships`): the bounds and no-touch test `canAddShip`,
  adding a ship, enumerating candidate placements, random auto-fill with
  the default fleet, and counting undestroyed ships;
- a ship's own cell operations (`ShipCells`: `isDestroyed`,
  `markAsDestroyed`) and its drag lifecycle (`ShipDrag`: start, move,
  rotate, drop with accept or revert);
- shot resolution on a cell (`BoardCell`): `bomb` with its miss, hit and
  sink branches, the clickable rule and the two sign maps;
- the computer's move heuristic (`BestMoveFinder`). It has a target mode
  beside unsunk hits and a hunt mode over a placement-count matrix. It
  estimates the sunk ships to work out the largest ship still afloat.

A board is a row-major grid `g[y][x]` of cells. Each cell holds its
coordinates, its state and an optional index into the board's ship list.
The index stands in for the object reference the game keeps in a cell.
Every state change is a pure function from the old board to the new
one. The main invariant is `BoardData.Consistent`:

- every ship lies on the board;
- no two ships touch, not even at a corner;
- every cell a ship covers is in a ship state and linked to that ship;
- every other cell is water (`Empty` or `Bombed`).

The model proves that placement, auto-fill, drag-and-drop and bombing
all keep this invariant.

Randomness (`randomInt`) is a natural number `rnd` that the caller
supplies. The result is `bottom + rnd % (1 + top - bottom)`, so every
index in range can be produced.

## Model

| member | source | states |
|---|---|---|
| BoardData.CreateBoardCells | src/class/boardData.ts:98-109 | the fresh grid is 10 × 10 and every cell is `Empty`, unlinked, and knows its own coordinates |
| BoardData.AddCell | src/class/boardData.ts:111-113 | the cell is stored at its own coordinates and no other cell changes |
| BoardData.CellAt | src/class/boardData.ts:124-128 | lookup yields a cell exactly for on-board coordinates, and that cell carries those coordinates |
| BoardData.IsCellSafe | src/class/boardData.ts:115-122 | isCellSave as written: off-board coordinates are safe, on-board ones are safe when their state is `Empty` or `Hollow`; what that means is stated by `BoardData.SafeIffNotBlocking` |
| BoardData.SafeIffNotBlocking | src/class/boardData.ts:115-122 | a coordinate is safe iff it is off the board or its cell is `Empty` or `Hollow` |
| BoardData.IsCellAndSurroundingsSafe | src/class/boardData.ts:130-139 | isCellAndSurroundingsSave as written: the early-exit walk over the nine offsets of the 3 × 3 block; its meaning is stated by `BoardData.IsCellAndSurroundingsSafeIff` |
| BoardData.AllSafeFromIff | src/class/boardData.ts:130-139 | the early-exit loop over the offsets answers true iff every remaining offset is safe |
| BoardData.IsCellAndSurroundingsSafeIff | src/class/boardData.ts:130-139 | a cell and its surroundings are safe iff every coordinate of its 3 × 3 block is safe |
| BoardData.CellsForShip | src/class/boardData.ts:67-76 | one lookup per ship part, in order from the origin |
| BoardData.DiagonalCells | src/class/boardData.ts:78-86 | at most four cells; they are exactly the on-board corner neighbours |
| BoardData.SurroundingCells | src/class/boardData.ts:88-96 | nine lookups, one per offset of the 3 × 3 block, each yielding the cell there or nothing off the board |
| BoardData.SurroundingCellsCoverBlock | src/class/boardData.ts:88-96 | the nine lookups include every on-board cell of the 3 × 3 block and nothing outside it |
| BoardData.UpdateAfterAddShip | src/class/boardData.ts:42-52 | every covered cell becomes `Ship` linked to a ship that covers it; uncovered cells are unchanged |
| BoardData.MarkShipsLast | src/class/boardData.ts:43-50 | ships are marked in list order, so a cell shared by several ships ends up linked to the last of them |
| BoardData.UpdateAfterAddShipNoTouch | src/class/boardData.ts:42-52 | when ships do not overlap, a covered cell is linked to the one ship covering it |
| BoardData.ConsistentAfterRewrite | src/class/boardData.ts:42-52 | a grid with the same ship cells, links and water cells keeps the board consistent |
| BoardData.FreshBoardConsistent | src/class/boardData.ts:98-109 | an empty board with no ships is consistent |
| ShipCells.IsDestroyed | src/class/ship.ts:117-120 | a ship is destroyed iff each of its on-board cells is `ShipBombed` or `ShipDestroyed` |
| ShipCells.MarkAsDestroyed | src/class/ship.ts:130-133 | every cell of the ship becomes `ShipDestroyed`, after which the ship counts as destroyed; links and all other cells are kept |
| Ships.InBoundsIffOnBoard | src/class/ships.ts:151-156 | the bounds test accepts a ship of length one or more iff its whole footprint is on the board |
| Ships.PartsSafeFromIff | src/class/ships.ts:158-165 | the early-exit loop over parts answers true iff every remaining part has a clear 3 × 3 block |
| Ships.CanAddShip | src/class/ships.ts:149-166 | canAddShip as written: the literal bounds comparisons, then the early-exit walk over the ship's cells; what it accepts is stated by `Ships.CanAddShipIff` |
| Ships.CanAddShipIff | src/class/ships.ts:149-166 | a ship can be added iff it is in bounds and no cell touching its footprint is `Ship`, `ShipBombed`, `ShipDestroyed` or `Bombed` |
| Ships.FreshBoardCanAdd | src/class/ships.ts:149-166 | on a fresh board only the bounds test matters |
| Ships.CanAddShipNoTouch | src/class/ships.ts:149-166 | on a consistent board an accepted ship touches none of the fleet |
| Ships.AddShip | src/class/ships.ts:104-115 | adds the ship iff it may be placed; if it is added, it is appended and its cells become `Ship` linked to it; otherwise the board is unchanged |
| Ships.AddShipConsistent | src/class/ships.ts:104-115 | adding a ship keeps the board consistent |
| Ships.AddShipCoverage | src/class/ships.ts:104-115 | after an add, every non-water cell is covered by some ship of the fleet |
| Ships.DirectionCandidates | src/class/ships.ts:124-147 | lists exactly the placeable, fresh ships of the size and direction whose origin is in the enumerated range |
| Ships.AllCandidates | src/class/ships.ts:117-122 | the horizontal and vertical candidate lists together hold every placeable candidate shape |
| Ships.CandidatesAvoidLastLines | src/class/ships.ts:127-138 | no enumerated candidate reaches the last column (horizontal) or last row (vertical), so none covers the bottom-right corner |
| Ships.EnumerationMissesLastColumn | src/class/ships.ts:127 | a ship flush with the right edge is placeable but is never enumerated |
| Ships.AddRandomShip | src/class/ships.ts:95-102 | succeeds iff a candidate exists; a success appends one of the candidates by way of `addShip` |
| Ships.AddRandomShipConsistent | src/class/ships.ts:95-102 | a random placement keeps the board consistent |
| Ships.RetryAfterFailureFails | src/class/ships.ts:87-93 | a failed attempt leaves the board as it was, so every retry fails too |
| Ships.DefaultShipsCollection | src/class/ships.ts:168-175 | ten ships with 20 cells in all: four of size 1, three of size 2, two of size 3 and one of size 4 |
| Ships.PlaceSizes | src/class/ships.ts:87-93 | placing a list of sizes keeps the existing fleet as a prefix and adds one ship per size |
| Ships.PlaceSizesFleet | src/class/ships.ts:88-92 | the sizes are placed by popping from the end of the list, so the new fleet's sizes are the list reversed |
| Ships.AddedCandidate | src/class/ships.ts:95-102 | the ship a successful random placement appends has the requested size and a tried origin |
| Ships.ReversePermutes | src/class/ships.ts:88-92 | popping a stack empty hands out each of its sizes exactly once |
| Ships.PlaceSizesShapes | src/class/ships.ts:88-92 | every ship placed comes from the candidate enumeration |
| Ships.PlaceSizesConsistent | src/class/ships.ts:87-93 | placing a list of sizes keeps the board consistent |
| Ships.AddRandomShips | src/class/ships.ts:87-93 | on success, ten ships are appended behind the existing fleet, which is kept as it was; `None` stands for the retry loop that never ends |
| Ships.AddRandomShipsOrder | src/class/ships.ts:87-93 | auto-fill places the sizes 4, 3, 3, 2, 2, 2, 1, 1, 1, 1 in that order |
| Ships.AutoFillFreshBoard | src/class/ships.ts:87-93 | auto-fill of an empty board yields the default fleet, touching nowhere, consistent, and avoiding the bottom-right cell |
| Ships.CountUndestroyed | src/class/ships.ts:24-26 | counts exactly the ships among the first n that are not destroyed |
| Ships.UndestroyedShipsNumber | src/class/ships.ts:24-26 | the number of ships not destroyed; it is zero iff every ship is destroyed |
| ShipDrag.StartDragging | src/class/ship.ts:36-43 | marks the ship dragged and turns its cells `Hollow`; no other cell or ship changes |
| ShipDrag.DragTo | src/class/ship.ts:101-105 | only the dragged ship's target coordinates change |
| ShipDrag.Toggle | src/class/ship.ts:139-145 | the drag orientation always changes, and nothing else about the ship does |
| ShipDrag.ToggleTwice | src/class/ship.ts:139-145 | rotating the drag orientation twice restores it |
| ShipDrag.ChangeDraggedDirection | src/class/ship.ts:139-145 | only the dragged ship's target orientation flips |
| ShipDrag.DropTarget | src/class/ship.ts:48-50 | the drop candidate is a fresh ship of the same size at the drag target and orientation |
| ShipDrag.PreviewMatchesBounds | src/class/ship.ts:154-158 | the drop preview is drawn iff the candidate passes the placement bounds test |
| ShipDrag.StopDragging | src/class/ship.ts:45-72 | an accepted drop moves the ship to its target; a rejected drop keeps its place and resets the drag target; the other ships never change (the cell effects are stated by `ShipDrag.RejectedDropRestores`, `ShipDrag.AcceptedDropMoves` and `ShipDrag.AcceptedDropLinks`) |
| ShipDrag.DragSteps | src/class/ship.ts:36-43 | starting, moving and rotating a drag all keep the board in a drag state of that ship |
| ShipDrag.RejectedDropRestores | src/class/ship.ts:61-71 | a rejected drop restores the board as it was before dragging |
| ShipDrag.AcceptedDropMoves | src/class/ship.ts:48-60 | an accepted drop moves only that ship; the new place holds `Ship`; the old cells no ship covers become `Empty` and keep their link; every cell no ship covers outside the old place is as it was before the pick-up |
| ShipDrag.AcceptedDropLinks | src/class/ship.ts:48-60 | after an accepted drop a covered cell is `Ship`, linked to the last ship listed over it, and otherwise as it was before the pick-up |
| ShipDrag.AcceptedDropKeepsOthers | src/class/ship.ts:48-60 | on a consistent board an accepted drop leaves the other ships' cells linked as before; they only take the state `Ship` |
| ShipDrag.OwnPlaceBlocked | src/class/ship.ts:36-43 | while its cells are `Ship`, a ship cannot be re-added at its own place |
| ShipDrag.HollowIsFree | src/class/ship.ts:36-43 | once its cells are `Hollow`, the ship's own place becomes placeable again |
| ShipDrag.DropNoTouch | src/class/ship.ts:48-60 | after an accepted drop the fleet still has no touching ships |
| ShipDrag.AcceptedDropConsistent | src/class/ship.ts:45-60 | an accepted drop keeps the board consistent |
| BoardCell.NewCell | src/class/boardCell.ts:13-25 | a new cell is `Empty` and unlinked |
| BoardCell.Clickable | src/class/boardCell.ts:31-35 | an own-board cell is clickable iff it holds an unhit ship; an enemy cell is clickable iff it has not been shot |
| BoardCell.StateSign | src/class/boardCell.ts:41-50 | the owner's sign is one of `_ . S X D H` |
| BoardCell.StateSignForFinder | src/class/boardCell.ts:52-61 | the opponent's sign is one of `_ . X D`: it never shows `S` or `H` |
| BoardCell.StateSignInjective | src/class/boardCell.ts:41-50 | the debug sign determines the state |
| BoardCell.FinderSignHidesShips | src/class/boardCell.ts:52-61 | the finder sign shows `_` for empty, unhit-ship and hollow cells, never `S` or `H`, and otherwise matches the debug sign |
| BoardCell.FinderViewHidesShips | src/class/boardCell.ts:52-61 | two grids that differ only in where unhit ships are give the finder the same view |
| BoardCell.Bomb | src/class/boardCell.ts:63-83 | a shot counts iff the cell is `Empty` or `Ship`, and it hits iff the cell is `Ship`; any other state changes nothing; a shot cell ends up shot; ship links are kept |
| BoardCell.BombMiss | src/class/boardCell.ts:64-67 | a miss turns only the target cell `Bombed` |
| BoardCell.BombHit | src/class/boardCell.ts:68-81 | a hit that does not sink turns the target `ShipBombed` and its on-board diagonals `Bombed`, and nothing else |
| BoardCell.BombSink | src/class/boardCell.ts:70-77 | a sinking hit turns the ship `ShipDestroyed`; empty cells next to it become `Bombed`; nothing else changes |
| BoardCell.DiagonalsAreWater | src/class/boardCell.ts:78-80 | on a consistent board the diagonals of a ship cell are water |
| BoardCell.HitCells | src/class/boardCell.ts:68-81 | after a hit the target cell is shot, and no cell's ship link changes |
| BoardCell.SinkConsistent | src/class/boardCell.ts:70-77 | sinking keeps the board consistent |
| BoardCell.HitKeepsShips | src/class/boardCell.ts:68-81 | a hit leaves every ship cell in a ship state |
| BoardCell.HitKeepsWater | src/class/boardCell.ts:68-81 | a hit leaves every water cell as it was or `Bombed` |
| BoardCell.HitConsistent | src/class/boardCell.ts:68-81 | a hit keeps the board consistent |
| BoardCell.BombConsistent | src/class/boardCell.ts:63-83 | every shot keeps the board consistent |
| BoardCell.BombTwice | src/class/boardCell.ts:63-83 | a second shot at the same cell does not count and changes nothing |
| BoardCell.ClickableIffShotCounts | src/class/boardCell.ts:31-35 | an enemy cell is clickable iff a shot at it counts, and after the shot it is no longer clickable |
| BestMoveFinder.ValueAt | src/class/bestMoveFinder.ts:143-148 | a view lookup yields a sign exactly for on-board coordinates |
| BestMoveFinder.PossibleMovesNear | src/class/bestMoveFinder.ts:104-111 | at most four moves; they are exactly the open on-board side neighbours |
| BestMoveFinder.FlatIndex | src/class/bestMoveFinder.ts:115 | flattening puts cell (x, y) at index 10·y + x |
| BestMoveFinder.Positions | src/class/bestMoveFinder.ts:113-126 | recovering (index % width, index / height) from the flat view lists exactly the on-board cells holding the sign |
| BestMoveFinder.PartlyDestroyedCoords | src/class/bestMoveFinder.ts:113-126 | lists exactly the cells holding `X` |
| BestMoveFinder.RunEnd | src/class/bestMoveFinder.ts:162-166 | the inner loop stops at the last `D` of an unbroken run |
| BestMoveFinder.LineFindsIff | src/class/bestMoveFinder.ts:159-184 | the scan of a line from position t reports exactly the maximal runs starting at t or later that qualify |
| BestMoveFinder.ScanLinesIff | src/class/bestMoveFinder.ts:159-202 | the scan of all lines reports exactly the qualifying maximal runs on those lines |
| BestMoveFinder.FindShips | src/class/bestMoveFinder.ts:156-204 | the row scan followed by the column scan; which finds it lists is stated by `BestMoveFinder.FindShipsIff`, and how often by `BestMoveFinder.FindShipsCount` |
| BestMoveFinder.FindShipsIff | src/class/bestMoveFinder.ts:156-204 | a find is reported iff it is a maximal run of two or more `D`s in a row or column, or a lone `D` with no `D` above or below; every find starts on a `D` |
| BestMoveFinder.LineFindsCount | src/class/bestMoveFinder.ts:159-184 | the scan of a line from position t lists each qualifying run starting at t or later exactly once, and nothing else |
| BestMoveFinder.ScanLinesCount | src/class/bestMoveFinder.ts:159-202 | the scan of all lines from a given line on lists each qualifying run on them exactly once |
| BestMoveFinder.FindShipsCount | src/class/bestMoveFinder.ts:156-204 | a find is listed once for each of the row and column scans that reports it; when a row run and a column run of the same length start on the same `D` (the corner of an L), that find is listed twice and so cancels two default sizes |
| BestMoveFinder.NoSunkNoFinds | src/class/bestMoveFinder.ts:156-204 | a view without `D` yields no finds |
| BestMoveFinder.RemoveFirst | src/class/bestMoveFinder.ts:61-62 | removes one occurrence of a present size; an absent size changes nothing |
| BestMoveFinder.RemoveEachMultiset | src/class/bestMoveFinder.ts:59-63 | the remaining sizes are the default fleet minus the found sizes, as multisets |
| BestMoveFinder.MaxOf | src/class/bestMoveFinder.ts:64 | the first element of the descending sort is the largest element |
| BestMoveFinder.FindMaxMissingSize | src/class/bestMoveFinder.ts:58-65 | 0 when every default size was found; otherwise the largest size still missing; never more than 4 |
| BestMoveFinder.NothingSunkHuntsFour | src/class/bestMoveFinder.ts:58-65 | with nothing sunk, the hunt is for a ship of size 4 |
| BestMoveFinder.WindowIsOpen | src/class/bestMoveFinder.ts:71-76 | the `canBePlaced` loop answers true iff every cell of the window is `_` |
| BestMoveFinder.CreateMatrix | src/class/bestMoveFinder.ts:67-102 | each cell's score is the number of open horizontal and vertical windows covering it |
| BestMoveFinder.CountAtMostCovering | src/class/bestMoveFinder.ts:69-99 | a cell is covered by at most as many open windows as windows of that line that could cover it |
| BestMoveFinder.CountAllOpen | src/class/bestMoveFinder.ts:69-99 | on an open line every window that could cover a cell does |
| BestMoveFinder.ScoreBounds | src/class/bestMoveFinder.ts:67-102 | a cell that is not `_` scores 0, and no score exceeds twice the ship size |
| BestMoveFinder.BottomRowNoVertical | src/class/bestMoveFinder.ts:86 | vertical windows never reach the bottom row, because starts stop before height − size |
| BestMoveFinder.OpenViewCorners | src/class/bestMoveFinder.ts:67-102 | on an open view the top-left corner scores 2 but the bottom-right corner only 1 |
| BestMoveFinder.RandomElement | src/class/bestMoveFinder.ts:150-153 | yields an element exactly when the list is non-empty, and that element is from the list |
| BestMoveFinder.TargetMoves | src/class/bestMoveFinder.ts:37-40 | the pooled target moves are exactly the open on-board side neighbours of the listed hits |
| BestMoveFinder.Best | src/class/bestMoveFinder.ts:46 | the best value is attained by some cell and no cell scores more |
| BestMoveFinder.HitsIff | src/class/bestMoveFinder.ts:34-36 | target mode is chosen iff the view has an `X` |
| BestMoveFinder.TargetMovesIff | src/class/bestMoveFinder.ts:36-42 | the target pool is exactly the open cells beside a hit |
| BestMoveFinder.HuntMove | src/class/bestMoveFinder.ts:43-55 | hunt mode yields an on-board cell with the highest score for the largest missing size |
| BestMoveFinder.FindBestMove | src/class/bestMoveFinder.ts:32-56 | with a hit, some open cell beside a hit, or none iff no such cell exists; without a hit, always a best-scored cell |

## Left out

- Rendering, colours, canvas geometry, mouse input, the rxjs streams and the
  pixel-to-cell conversions (`getCellCoordsFromMousePosition`,
  `updatePosition`, `updateAfterRotationPosition`). Drag targets are given
  directly as grid coordinates, i.e. the result of `updateDraggedPossibleRectangle`.
- The ship reordering during a drag (`splice`/`push` in `handleMouseInput`)
  and the sort by size in `update`. Both only reorder the fleet for drawing.
  The model keeps a fixed index for each ship.
- Turn switching, the game state manager and the board orchestration that
  calls these operations.
- `trigger()` and `findEmptyCoordsList`. The first is a debug entry point
  and the second has no caller.
- How the game builds the finder's view from a board. No such code exists
  in the modelled files. `BoardCell.FinderView` is the natural
  construction from `stateSignForFinder`, and the finder itself takes any
  10 × 10 view.
- Randomness: `Math.random` is replaced by the caller-supplied `rnd`.
- Ships.AddRandomShips: the game's `while (!addRandomShip(...));` never
  ends once a size has no candidate, because a failure leaves the board
  unchanged (`Ships.RetryAfterFailureFails`). The model returns `None` there
  instead of diverging.
- BoardCell.Bomb: for a cell in any state other than `Empty` or `Ship`, the
  game returns `undefined`. The model returns `None`.
- The game's loops `x <= width` (hunt-mode collection and the vertical
  pass of `createMatrix`) also visit one column past the view, and neither
  visit changes anything, so the model stops at the last column. In the
  hunt loop `matrix[y][10]` reads `undefined`, which never equals the best
  value (src/class/bestMoveFinder.ts:47-53). In the vertical pass the
  lookup goes through `getValueAtCords`, which answers `null` off the view,
  so no window there is open (src/class/bestMoveFinder.ts:84-99 and
  143-147).
- The sink branch's halo is modelled by its net effect, ship part by ship
  part (every `Empty` cell in a 3 × 3 block around a part becomes `Bombed`),
  not as a list of lookups.
- BestMoveFinder.FindMaxMissingSize: JavaScript's default `sort()` compares
  strings. For the sizes 1 to 4 this equals numeric order, so the model
  takes the numeric maximum.
- The `Missed` and `Deducted` members of the cell-state enum
  (src/enum/cellState.ts:1-9) are left out. No code assigns them. The
  operations use `CellState.Bombed`, which that enum does not declare, so
  the model's `CellState` follows the code: `Empty`, `Bombed`, `Ship`,
  `ShipBombed`, `ShipDestroyed` and `Hollow`.
