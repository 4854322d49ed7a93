# Minesweeper rules engine

A Dafny model of the rules engine of a React minesweeper. The engine exists in two
versions, and the model keeps them apart because they behave differently.

- **The `useBoard` hook** (`src/components/board-component/use-board.tsx`) is the one the
  running app uses. Its reveals work on a deep copy of the grid and commit the copy only
  when no mine was hit.
- **The class `BoardClass`** (`src/models/board.ts`) updates its fields in place. Its
  chord guard lives in a view handler and is folded into the method `Chord`.

Both versions share the square record (`src/models/square.ts`).

Files:

- `option.dfy`: the `Option` type. It stands for JavaScript's `undefined`.
- `squares.dfy`: the square record and its `isEmpty` predicate.
- `neighbors.dfy`: the eight offsets and the in-bounds neighbour coordinates.
- `placement.dfy`: mine placement with its splice-then-read order. The random draws are an
  oracle sequence of indices.
- `grid.dfy`: the grid as a value `seq<seq<Square>>` and the freshly built grid.
  - It defines what a reveal may change, which is the partner property of every
    operation that opens squares:
    - `Grows`: squares only go from unopened to opened-and-unflagged;
    - `NoNewMine`: mines are untouched;
    - `FloodClosed`: every empty square that was opened has all its neighbours opened;
    - `OpenedWithin`: the squares that were opened can be put in an opening order in which
      each is one of the reveal's roots or a neighbour of an empty square opened before it.
      So every square opened is reachable from the roots through empty squares opened by
      the same reveal. This bounds a reveal from above, as `FloodClosed` bounds it from
      below.
  - It also holds the work-list invariant shared by both flood-fills, and the counting of
    flags and of opened squares.
- `use_board.dfy`, module `UseBoard`: the hook.
  - Its grid helpers are methods on grid values.
  - Its React state is the class `Board`.
  - React runs two effects after a state change. Here they are the explicit methods
    `AfterGridChange` and `AfterStatusChange`, which the caller runs after an operation.
- `board_class.dfy`, module `BoardModel`: the class `BoardClass` with the fields of the
  source, reassigned by its methods.

Where the code differs from the usual rules of the game, the model follows the code:

- A draw can record the same position twice, or record `undefined`. Fewer than
  `mineCount` distinct mines can therefore result. See `DrawMayRepeat` and
  `DrawMayBeUndefined`.
- Neither version checks the game status in the hook's `flag` and `sweep`, and the class's
  `flag` and `openSquare`.
- The class counter `remainingMineCount` starts at 0. Neither the constructor nor `clear`
  sets it.
- The class `openSquare` opens a mine it is asked to open, after ending the game as lost.
- A flood-fill clears the flags on the squares it opens without moving the flag counter.
- The class `checkWin` compares against `rowCount * colCount - mineCount` even when no grid
  exists. It can therefore declare a win when that difference is at most 0.
- `openAllGridSquares` opens every square and keeps its flag.
- Neither the hook's `sweepAround` nor the class view's chord handler checks that the clicked
  square is opened. A chord on an unopened square whose count matches its flagged
  neighbours opens its unflagged neighbours.
- The class `openSquare` floods again from an empty square that is already opened. So that
  square ends with all its neighbours opened, and its reveal is bounded by the square and
  its neighbours (`Seed`), not by the square alone. See `ReopenFloods`.

## Model

| member | source | states |
|---|---|---|
| Squares.NewSquare | src/models/square.ts:11-23 | stores row, col and isMine as given; the count is 0; the square is unflagged and unopened; it is empty exactly when it is not a mine |
| Squares.MineNeverEmpty | src/models/square.ts:19-21 | a mine square is never empty, whatever its neighbour count |
| Squares.Opened | src/components/board-component/use-board.tsx:176-177 | a revealed square is opened and unflagged; its position, mine, count and emptiness are kept |
| Neighbors.Shifted | src/components/board-component/use-board.tsx:118-120 | one coordinate per offset, each the offset applied to (row, col) in `[col, row]` order |
| Neighbors.KeepInBounds | src/components/board-component/use-board.tsx:121-127 | keeps exactly the listed coordinates that lie on the grid, and no more of them than there were |
| Neighbors.NeighborCoordinates | src/components/board-component/use-board.tsx:112-129 | at most 8 coordinates, each in bounds and none equal to the cell itself |
| Neighbors.NeighborCoordinatesExact | src/components/board-component/use-board.tsx:112-129 | a coordinate is listed if and only if it is in bounds and touches the cell |
| Neighbors.NeighborSymmetric | src/components/board-component/use-board.tsx:112-129 | if c is a neighbour of an in-bounds cell, then the cell is a neighbour of c |
| Neighbors.NeighborCoordinatesDistinct | src/components/board-component/use-board.tsx:6-15 | the eight offsets are distinct, so no position is listed twice |
| Placement.Range | src/components/board-component/use-board.tsx:62 | the pool is the positions 0 to limit-1, in order |
| Placement.Splice | src/components/board-component/use-board.tsx:66 | removes exactly one element when the index is in range, otherwise nothing; adds nothing |
| Placement.Read | src/components/board-component/use-board.tsx:71 | reading is defined exactly for indices inside the pool, and then yields a pool element |
| Placement.Drawn | src/components/board-component/use-board.tsx:68-72 | exactly one record per draw, and each defined record comes from the pool |
| Placement.InitialPoolExcludesStart | src/components/board-component/use-board.tsx:62-66 | once the start position is spliced out, the pool never holds it and holds only grid positions |
| Placement.StartNeverDrawn | src/components/board-component/use-board.tsx:57-75 | the draw loop makes one record per draw, never records the start position, and records only grid positions |
| Placement.DrawMayRepeat | src/components/board-component/use-board.tsx:69-71 | splicing and then reading at the same index can record one position twice |
| Placement.DrawMayBeUndefined | src/components/board-component/use-board.tsx:69-71 | drawing the last index records undefined |
| Grid.Set | src/components/board-component/use-board.tsx:259-263 | replacing one square keeps the shape and changes no other square |
| Grid.OpenAt | src/components/board-component/use-board.tsx:148-149 | opening one square keeps the shape, leaves it opened and unflagged, and changes no other square |
| Grid.GridNeighbors | src/components/board-component/use-board.tsx:95-110 | at most 8 positions, all on a well-formed grid |
| Grid.GridNeighborsDistinct | src/components/board-component/use-board.tsx:95-110 | no neighbour position is listed twice |
| Grid.EmptyHasNoMineNeighbor | src/models/square.ts:19-21 | on a grid whose counts are right, no neighbour of an empty square is a mine |
| Grid.SetBoardGrid | src/components/board-component/use-board.tsx:259-263 | toggling a flag keeps the grid's dimensions and its neighbour counts correct |
| Grid.NewSquareAt | src/components/board-component/use-board.tsx:77-93 | the square is a mine if and only if its flat index was recorded; its count is the number of in-bounds neighbours whose flat index was recorded, so it lies in 0..8; it is unflagged and unopened |
| Grid.NewGrid | src/components/board-component/use-board.tsx:42-55 | rowCount rows of colCount squares, each the square `addSquare` builds for its position |
| Grid.MinesAmongNewGrid | src/components/board-component/use-board.tsx:86-91 | counting recorded positions among in-bounds neighbours equals counting the mine squares there |
| Grid.NewGridIsBoardGrid | src/components/board-component/use-board.tsx:42-93 | every count of the built grid equals a recount of the mines around the square; mines are exactly the recorded positions; nothing is opened or flagged |
| Grid.StartSquareSafe | src/components/board-component/use-board.tsx:205-211 | on the grid built around the start square, that square is not a mine |
| Grid.OpenAtGrows | src/components/board-component/use-board.tsx:148-149 | opening an unopened square or an unflagged one is a reveal in the sense of `Grows` |
| Grid.OpenAtShrinks | src/components/board-component/use-board.tsx:137-150 | opening an unopened square shrinks the set of unopened positions; this is the flood-fill's termination measure |
| Grid.WorkListStart | src/components/board-component/use-board.tsx:135 | the work-list seeded with the target's neighbours satisfies the flood invariant |
| Grid.WorkListSkip | src/components/board-component/use-board.tsx:138-141 | popping an opened square, or a mine where mines are skipped, keeps the flood invariant |
| Grid.WorkListOpen | src/components/board-component/use-board.tsx:143-149 | opening a popped square and pushing its neighbours when it is empty keeps the flood invariant |
| Grid.WorkListDone | src/components/board-component/use-board.tsx:137 | an empty work-list leaves the target and every empty square opened on the way surrounded by opened squares |
| Grid.FlagCountSet | src/components/board-component/use-board.tsx:259-271 | replacing one square changes the grid's flag count by that square's flag alone |
| Grid.OpenedSquaresOf | src/components/board-component/use-board.tsx:153-155 | every listed square is opened and on the grid, and every opened square is listed |
| Grid.OpenedSquaresCount | src/components/board-component/use-board.tsx:153-155 | the length of the opened list equals the number of opened positions, each counted once, so `checkWin` compares the true opened count |
| Grid.Unflagged | src/components/board-component/use-board.tsx:303 | keeps exactly the listed positions that carry no flag: the neighbours a chord starts from |
| Grid.OpenedWithinThen | src/components/board-component/use-board.tsx:298-307 | two reveals in a row are reached from the roots r when r holds the first's roots and each still-closed root of the second is in r or next to an empty square the first opened |
| Grid.OpenedWithinOutside | src/components/board-component/use-board.tsx:131-151 | a square that a reveal changed is one of its roots or a neighbour of an empty square it opened; any other square, flag included, is kept |
| Grid.OpenedWithinRegion | src/components/board-component/use-board.tsx:131-151 | a reveal does not jump: a region holding no root, into which no empty square outside it floods, stays closed |
| Grid.IslandStaysClosed | src/components/board-component/use-board.tsx:131-151 | on the row [0, 0, 1, mine, 1, 0, 0], a reveal from the left end leaves the three squares past the mine closed, although they are empty or touch an empty square |
| Grid.WrongFlagKept | src/components/board-component/use-board.tsx:298-307 | on the row [flagged empty, opened 1, mine], a chord's reveal from the unflagged neighbours leaves the wrongly flagged square flagged, closed and unchanged |
| Grid.OpenOrderExtend | src/components/board-component/use-board.tsx:143-149 | opening a closed square reached from the roots extends the opening order by that square |
| Grid.QueuedOpen | src/components/board-component/use-board.tsx:143-149 | opening a queued square and queueing the neighbours of an empty one keeps every opened and every queued square within the flood's bound |
| Grid.OpenedWithinTarget | src/components/board-component/use-board.tsx:172-177 | after a flood from the empty target, opening the target bounds the whole reveal by the target alone |
| Grid.OpenedWithinSeed | src/models/board.ts:174-179 | after a flood from an empty square, opened before or not, opening it bounds the reveal by the square and its neighbours |
| Grid.FullyOpenedCount | src/components/board-component/use-board.tsx:316-323 | on a fully opened board the opened count is rowCount * colCount, so the win threshold is met |
| UseBoard.OpenEmptyNeighbors | src/components/board-component/use-board.tsx:131-151 | terminates; opens only unopened squares, leaving them opened and unflagged; touches no mine; every non-mine neighbour of the target, and of each empty square it opened, ends opened; every square it opens is reached from a neighbour of the target through empty squares it opened before |
| UseBoard.OpenSquare | src/components/board-component/use-board.tsx:157-178 | reports a hit exactly on an unflagged, unopened mine; a flagged, opened or mine square leaves the grid unchanged; otherwise the square ends opened; a numbered square opens alone; everything opened is reached from the square through empty squares opened before it; reveals only grow and never touch a mine |
| UseBoard.OpenNeighborsOnCopy | src/components/board-component/use-board.tsx:298-307 | a hit is reported exactly when a neighbour is an unflagged, unopened mine; every unflagged non-mine neighbour ends opened, and every unflagged neighbour when there was no hit; everything opened is reached from the unflagged neighbours through empty squares opened before it; a flagged neighbour is kept unless such a flood reaches it |
| UseBoard.FloodOpen | src/components/board-component/use-board.tsx:143-149 | opening the popped square keeps the flood invariant, its upper bound included, and shrinks the unopened set |
| UseBoard.OpenAllGridSquares | src/components/board-component/use-board.tsx:180-186 | every square ends opened with everything else kept; on a fully opened grid nothing changes, so it is idempotent |
| UseBoard.Board.constructor | src/components/board-component/use-board.tsx:192-194 | no grid, READY, and a counter of mineCount |
| UseBoard.Board.InitMinesPositions | src/components/board-component/use-board.tsx:57-75 | the loop records exactly what `Drawn` specifies: mineCount records, none of them the start position, all on the grid |
| UseBoard.Board.AddSquare | src/components/board-component/use-board.tsx:77-93 | appends the square for (row, col) to the last row and changes no other row |
| UseBoard.Board.CreateBoardGrid | src/components/board-component/use-board.tsx:42-55 | the nested loops build exactly `NewGrid` from the drawn positions: correct counts, nothing opened or flagged |
| UseBoard.Board.StartGrid | src/components/board-component/use-board.tsx:206-211 | the built grid is consistent; the start square ends opened; no mine is touched; a numbered start square opens alone; everything opened is reached from the start square through empty squares opened before it |
| UseBoard.Board.Start | src/components/board-component/use-board.tsx:205-215 | commits the grid with the start square opened and no mine touched, alone when it is numbered, otherwise everything opened is reached from it through empty squares opened before; status is ONGOING; the counter is unchanged |
| UseBoard.Board.Restart | src/components/board-component/use-board.tsx:217-221 | no grid, READY, and a counter of mineCount |
| UseBoard.Board.End | src/components/board-component/use-board.tsx:325-327 | status becomes WIN or LOSE as asked |
| UseBoard.Board.Sweep | src/components/board-component/use-board.tsx:235-250 | all-or-nothing: a hit leaves the grid exactly as it was and sets LOSE; otherwise the revealed copy is committed and the status kept; a numbered square opens alone, and everything opened is reached from it through empty squares opened before it |
| UseBoard.Board.Flag | src/components/board-component/use-board.tsx:252-272 | a no-op with no grid or on an opened square; otherwise toggles the flag and moves the counter by -1 on set and +1 on clear; the counter plus the flags on the grid never changes |
| UseBoard.Board.OpenNeighborSquares | src/components/board-component/use-board.tsx:295-314 | all-or-nothing: a live mine among the neighbours leaves the grid as it was and sets LOSE; otherwise every unflagged neighbour ends opened, everything opened is reached from the unflagged neighbours through empty squares opened before it, and the copy is committed |
| UseBoard.Board.SweepAround | src/components/board-component/use-board.tsx:274-284 | a no-op unless the flagged neighbours number exactly the square's count; then it behaves as `OpenNeighborSquares`: only unflagged neighbours are roots of the reveal |
| UseBoard.Board.CheckWin | src/components/board-component/use-board.tsx:316-323 | status becomes WIN exactly when a grid exists and its opened count reaches rowCount * colCount - mineCount; otherwise it is kept |
| UseBoard.Board.OpenSquares | src/components/board-component/use-board.tsx:286-293 | every square of a present grid ends opened with everything else kept |
| UseBoard.Board.AfterGridChange | src/components/board-component/use-board.tsx:227-229 | while ONGOING, a grid that meets the threshold wins; otherwise the status is kept |
| UseBoard.Board.AfterStatusChange | src/components/board-component/use-board.tsx:231-233 | on WIN or LOSE every square ends opened with its mine, count, flag and position kept; otherwise the grid is kept |
| BoardModel.Present | src/models/board.ts:102-104 | keeps exactly the listed positions that hold a square, and all of them when all do |
| BoardModel.BoardClass.constructor | src/models/board.ts:30-57 | sets only the dimensions; no grid, no mine positions, start position 0, counter 0, READY |
| BoardModel.BoardClass.GetNeighborCoordinates | src/models/board.ts:107-121 | at most 8 distinct coordinates, exactly the in-bounds positions touching the cell |
| BoardModel.BoardClass.GetNeighbors | src/models/board.ts:92-105 | only positions holding a square; on a board of the class's dimensions, exactly the grid neighbours |
| BoardModel.BoardClass.OpenedSquares | src/models/board.ts:159-163 | none without a grid, otherwise the opened squares of the grid |
| BoardModel.BoardClass.InitMinesPositions | src/models/board.ts:76-90 | the loop records exactly what `Drawn` specifies: mineCount records, never the start position, all on the grid |
| BoardModel.BoardClass.AddSquare | src/models/board.ts:123-134 | appends the square for (row, col) to row `row` and changes nothing else |
| BoardModel.BoardClass.FillRow | src/models/board.ts:69-71 | fills row `row` with exactly the built grid's row and leaves the other rows alone |
| BoardModel.BoardClass.CreateBoardGrid | src/models/board.ts:63-74 | records the drawn positions and builds exactly `NewGrid` from them |
| BoardModel.BoardClass.End | src/models/board.ts:223-225 | status becomes WIN or LOSE as asked |
| BoardModel.BoardClass.Clear | src/models/board.ts:238-246 | no grid, no positions, zero dimensions and start, READY; the counter is kept |
| BoardModel.BoardClass.Flag | src/models/board.ts:200-213 | a no-op with no grid or on an opened square; otherwise toggles the flag and moves the counter by -1 on set and +1 on clear; the counter plus the flags on the grid never changes |
| BoardModel.BoardClass.CheckWin | src/models/board.ts:215-221 | status becomes WIN exactly when the opened count reaches rowCount * colCount - mineCount; otherwise it is kept |
| BoardModel.BoardClass.OpenEmptyNeighbors | src/models/board.ts:136-157 | terminates; opens only unopened squares, leaving them opened and unflagged; every neighbour of the target, and of each empty square it opened, ends opened; every square it opens is reached from a neighbour of the target through empty squares it opened before; from an empty target no mine is touched |
| BoardModel.BoardClass.FloodPop | src/models/board.ts:144-156 | one turn keeps the flood invariant and either shrinks the unopened set or shortens the work-list |
| BoardModel.FloodOpenMineFree | src/models/board.ts:149-151 | when the flood starts from an empty square, everything on the work-list is a non-mine, so opening the next one touches no mine |
| BoardModel.FloodedTarget | src/models/board.ts:174-179 | opening an empty square after its flood, opened before or not, leaves it and every opened empty square surrounded and bounds the reveal by the square's seed |
| BoardModel.NumberedTarget | src/models/board.ts:174-179 | opening a square that is not empty opens it alone and satisfies `Revealed` |
| BoardModel.BoardClass.OpenSquare | src/models/board.ts:165-180 | a no-op without a grid or on a flagged square; otherwise the square ends opened and unflagged, alone when it is not empty; when it is empty, all its neighbours end opened, even when it was opened before, and everything opened is reached from its seed through empty squares opened before; other mines are untouched; the game is lost exactly when it is a mine |
| BoardModel.BoardClass.OpenAllGridSquares | src/models/board.ts:182-190 | every square ends opened with everything else kept, so the opened count becomes rowCount * colCount |
| BoardModel.BoardClass.OpenNeighborSquares | src/models/board.ts:192-198 | every neighbour that is unflagged when its turn comes ends opened, and an empty one that was unflagged at the start ends with all its neighbours opened, even when it was opened before; everything opened is reached from the seeds of the neighbours unflagged at the start through empty squares opened before it, so a flagged neighbour opens only when such a flood reaches it; mines elsewhere are untouched; the game is lost exactly when an unflagged mine is among the neighbours |
| BoardModel.BoardClass.Chord | src/components/board-component-class/board.tsx:124-139 | opens the neighbours as `OpenNeighborSquares` does, reached from the seeds of the unflagged ones and flooding again around each unflagged empty one, exactly when the flagged neighbours number the square's count; otherwise nothing changes |
| BoardModel.BoardClass.Start | src/models/board.ts:227-236 | records row * colCount + col as the start, builds the grid from the draws, opens the start square, which is never a mine, alone when it is numbered and otherwise with everything opened reached from it through empty squares opened before, and sets ONGOING |
| BoardModel.ReopenFloods | src/models/board.ts:165-180 | on the row [opened empty, closed empty], `openSquare` on the opened square ends with its neighbour opened |
| BoardModel.ReopenChordFloods | src/models/board.ts:192-198 | on the same row, a chord whose neighbour is the opened empty square ends with that square's neighbour opened |
| BoardModel.ChordedSurrounded | src/models/board.ts:192-198 | after each neighbour's turn, every empty neighbour unflagged at the start that has had its turn has all its neighbours opened |
| BoardModel.ChordedBound | src/models/board.ts:194-197 | after the reveal of the next unflagged neighbour, the chord's reveal is still reached from the seeds of the neighbours unflagged at the start |
| BoardModel.UnflaggedByFlood | src/models/board.ts:144-155 | a neighbour flagged before the chord but unflagged at its turn was opened by a flood, so its still-closed seed squares touch an empty square the chord opened |
| BoardModel.StartGridReady | src/models/board.ts:227-236 | the grid built for the first click is consistent, its mines are the recorded positions, and the start square is on it, unflagged and not a mine |

## Left out

- React state, `useEffect` ordering and `useImperativeHandle` are left out. So are rendering and input wiring, and the `onStart`, `onStatusChange` and `onRemainingMineCountChange` callbacks. The two effects that matter for the rules are explicit methods.
- `Math.random` and `Math.floor` are floating point. The model replaces them with the `draws` parameter, an oracle of drawn indices, one per mine.
- lodash `cloneDeep` is a foreign call. The model uses value semantics instead: the hook's helpers take a grid value and return a new one.
- `createEmptyBoard` and `getEmptyBoard` build render placeholders with aliased rows, so they are not modelled.
- Object identity of squares is not modelled. `getNeighbors` and the flood work-lists hold positions instead of square objects, and each square is read from the grid at the moment it is used.
- The source crashes when a row or column is out of range. Callers of the model must instead pass a position on the grid, which is stated as a `requires`.
- UseBoard.OpenSquare: `onBoom` is returned as the flag `boomed` rather than called.
- UseBoard.OpenEmptyNeighbors: requires the target to be on the grid. Its only caller, `openSquare`, guarantees this, so the source's guard for a missing target is not modelled.
- The level presets, the timer, internationalisation and the other view components are not part of this model.
