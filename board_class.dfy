/**
 * The class-based board of src/models/board.ts: one object whose methods update its
 * fields in place. Unlike the hook it opens a mine it is asked to open, its flood-fill
 * skips only opened squares, and its flag counter starts at 0. The chord guard of its
 * view (src/components/board-component-class/board.tsx) is the method `Chord`.
 */
module BoardModel {
  import opened Wrappers
  import opened Squares
  import opened Neighbors
  import opened Placement
  import opened Grid

  /** The listed positions that name a square of the grid, in order (`filter(!!neighbor)`). */
  function Present(g: Grid, ns: seq<Coord>): (r: seq<Coord>)
    ensures forall n :: n in r <==> n in ns && Inside(g, n)
    ensures (forall n :: n in ns ==> Inside(g, n)) ==> r == ns
  {
    if ns == [] then []
    else (if Inside(g, ns[0]) then [ns[0]] else []) + Present(g, ns[1..])
  }

  /** Every square is a mine exactly when its flat index is among the recorded positions. */
  ghost predicate MinesAt(g: Grid, colCount: nat, positions: seq<Option<int>>)
  {
    forall p :: Inside(g, p) ==> (At(g, p).isMine <==> Some(FlatIndex(colCount, p)) in positions)
  }

  /** A mine among the listed positions that carries no flag. */
  ghost predicate UnflaggedMineAmong(g: Grid, ns: seq<Coord>)
  {
    exists n :: n in ns && Inside(g, n) && At(g, n).isMine && !At(g, n).isFlagged
  }

  /** Reveals keep the layout, so they keep a board grid and its recorded mines. */
  lemma LayoutKept(g: Grid, h: Grid, rowCount: nat, colCount: nat, positions: seq<Option<int>>)
    requires SameLayout(g, h) && BoardGrid(g, rowCount, colCount) && MinesAt(g, colCount, positions)
    ensures BoardGrid(h, rowCount, colCount) && MinesAt(h, colCount, positions)
  {
    SameLayoutBoardGrid(g, h, rowCount, colCount);
  }

  class BoardClass {
    var grid: Option<Grid>
    var minePositions: seq<Option<int>>
    var rowCount: nat
    var colCount: nat
    var mineCount: nat
    var startPosition: nat
    var remainingMineCount: int
    var status: BoardStatus

    /** A grid present is a board grid of the dimensions whose mines are the recorded ones. */
    ghost predicate Valid()
      reads this
    {
      grid.Some? ==> BoardGrid(grid.value, rowCount, colCount) && MinesAt(grid.value, colCount, minePositions)
    }

    /** Only the dimensions are set; the counter keeps its initial 0. */
    constructor (rowCount: nat, colCount: nat, mineCount: nat)
      ensures Valid()
      ensures this.rowCount == rowCount && this.colCount == colCount && this.mineCount == mineCount
      ensures grid == None && minePositions == [] && startPosition == 0
      ensures remainingMineCount == 0 && status == Ready
    {
      grid, minePositions, startPosition := None, [], 0;
      remainingMineCount, status := 0, Ready;
      this.rowCount, this.colCount, this.mineCount := rowCount, colCount, mineCount;
    }

    /** `getNeighborCoordinates`, measured on the board's own dimensions. */
    function GetNeighborCoordinates(row: int, col: int): (r: seq<Coord>)
      reads this
      ensures |r| <= 8 && Distinct(r)
      ensures forall c :: c in r <==> InBounds(rowCount, colCount, c) && Adjacent(row, col, c)
    {
      NeighborCoordinatesDistinct(rowCount, colCount, row, col);
      NeighborCoordinatesFacts(rowCount, colCount, row, col);
      NeighborCoordinates(rowCount, colCount, row, col)
    }

    /**
     * `getNeighbors`: nothing without a (non-empty) grid, otherwise the neighbour positions
     * that hold a square. On a valid board these are the hook's grid neighbours.
     */
    function GetNeighbors(row: int, col: int): (r: seq<Coord>)
      reads this
      ensures forall n :: n in r ==> grid.Some? && Inside(grid.value, n)
      ensures grid.Some? && WellFormed(grid.value) && |grid.value| == rowCount &&
              (rowCount > 0 ==> Cols(grid.value) == colCount) ==>
                r == GridNeighbors(grid.value, row, col)
    {
      if grid.None? || |grid.value| == 0 || |grid.value[0]| == 0 then []
      else Present(grid.value, GetNeighborCoordinates(row, col))
    }

    /** `openedSquares`: none without a grid. */
    function OpenedSquares(): (r: seq<Square>)
      reads this
      ensures grid.None? ==> r == []
      ensures grid.Some? ==> r == OpenedSquaresOf(grid.value)
    {
      if grid.None? then [] else OpenedSquaresOf(grid.value)
    }

    /**
     * `initMinesPositions`: `startPosition` is spliced out of the pool first, then each of
     * the `mineCount` draws splices the drawn index out and records what then sits there.
     */
    method InitMinesPositions(draws: seq<nat>) returns (positions: seq<Option<int>>)
      requires |draws| == mineCount
      ensures positions == Drawn(InitialPool(rowCount * colCount, startPosition), draws)
      ensures |positions| == mineCount && Some(startPosition) !in positions
      ensures forall k :: 0 <= k < |positions| && positions[k].Some? ==>
                0 <= positions[k].value < rowCount * colCount
    {
      positions := [];
      var limit := rowCount * colCount;
      var positionPool := Range(limit);
      positionPool := Splice(positionPool, startPosition);
      for i := 0 to mineCount
        invariant positions + Drawn(positionPool, draws[i..]) == Drawn(InitialPool(limit, startPosition), draws)
      {
        var positionIndex := draws[i];
        assert draws[i..][1..] == draws[i + 1..];
        positionPool := Splice(positionPool, positionIndex);
        positions := positions + [Read(positionPool, positionIndex)];
      }
      assert draws[mineCount..] == [];
      StartNeverDrawn(limit, startPosition, draws);
    }

    /**
     * `addSquare`: appends to row `row` the square for (row, col), a mine exactly when its
     * flat index was recorded, counting the recorded positions among its neighbours.
     */
    method AddSquare(row: nat, col: nat)
      requires grid.Some? ==> row < |grid.value|
      modifies this`grid
      ensures old(grid).None? ==> grid == old(grid)
      ensures old(grid).Some? ==>
                grid == Some(old(grid).value[row := old(grid).value[row] + [NewSquareAt(rowCount, colCount, row, col, minePositions)]])
    {
      if grid.None? {
        return;
      }
      var square := NewSquareAt(rowCount, colCount, row, col, minePositions);
      grid := Some(grid.value[row := grid.value[row] + [square]]);
    }

    /** The inner loop of `createBoardGrid`: `addSquare` for every column of row `row`. */
    method FillRow(row: nat)
      requires grid.Some? && row < |grid.value| && row < rowCount && grid.value[row] == []
      modifies this`grid
      ensures grid.Some? && |grid.value| == |old(grid).value|
      ensures forall r :: 0 <= r < |grid.value| && r != row ==> grid.value[r] == old(grid).value[r]
      ensures grid.value[row] == NewGrid(rowCount, colCount, minePositions)[row]
    {
      ghost var g := grid.value;
      ghost var full := NewGrid(rowCount, colCount, minePositions);
      for col := 0 to colCount
        invariant grid.Some? && |grid.value| == |g|
        invariant forall r :: 0 <= r < |g| && r != row ==> grid.value[r] == g[r]
        invariant grid.value[row] == full[row][..col]
      {
        assert full[row][col] == NewSquareAt(rowCount, colCount, row, col, minePositions);
        PrefixExtends(full[row], col);
        AddSquare(row, col);
      }
      assert |full[row]| == colCount && full[row][..|full[row]|] == full[row];
    }

    /** `createBoardGrid`: records the mine positions, then pushes the rows square by square. */
    method CreateBoardGrid(draws: seq<nat>)
      requires |draws| == mineCount
      modifies this`grid, this`minePositions
      ensures minePositions == Drawn(InitialPool(rowCount * colCount, startPosition), draws)
      ensures grid == Some(NewGrid(rowCount, colCount, minePositions))
    {
      minePositions := InitMinesPositions(draws);
      ghost var positions := minePositions;
      ghost var full := NewGrid(rowCount, colCount, positions);
      grid := Some([]);
      for row := 0 to rowCount
        invariant grid.Some? && |grid.value| == row && minePositions == positions
        invariant forall r :: 0 <= r < row ==> grid.value[r] == full[r]
      {
        grid := Some(grid.value + [[]]);
        FillRow(row);
      }
      assert grid.value == full;
    }

    /** `end`. */
    method End(win: bool)
      modifies this`status
      ensures status == if win then Win else Lose
    {
      status := if win then Win else Lose;
    }

    /** `clear`: back to READY with no grid and zero dimensions; the counter is not reset. */
    method Clear()
      modifies this
      ensures Valid() && grid == None && minePositions == [] && startPosition == 0
      ensures rowCount == 0 && colCount == 0 && mineCount == 0 && status == Ready
      ensures remainingMineCount == old(remainingMineCount)
    {
      grid, minePositions := None, [];
      rowCount, colCount, mineCount, startPosition := 0, 0, 0, 0;
      status := Ready;
    }

    /**
     * `flag`: on an unopened square toggles the flag and moves the counter the other way,
     * so the counter plus the number of flags on the grid never changes.
     */
    method Flag(row: int, col: int)
      requires Valid() && (grid.Some? ==> Inside(grid.value, Coord(col, row)))
      modifies this`grid, this`remainingMineCount
      ensures Valid()
      ensures remainingMineCount + Flags(grid) == old(remainingMineCount + Flags(grid))
      ensures old(grid).None? || At(old(grid).value, Coord(col, row)).isOpened ==>
                grid == old(grid) && remainingMineCount == old(remainingMineCount)
      ensures old(grid).Some? && !At(old(grid).value, Coord(col, row)).isOpened ==>
                var p, s := Coord(col, row), At(old(grid).value, Coord(col, row));
                grid == Some(Set(old(grid).value, p, s.(isFlagged := !s.isFlagged))) &&
                remainingMineCount == old(remainingMineCount) + (if s.isFlagged then 1 else -1)
    {
      if grid.None? {
        return;
      }
      var p := Coord(col, row);
      var square := At(grid.value, p);
      if square.isOpened {
        return;
      }
      var toggled := square.(isFlagged := !square.isFlagged);
      ghost var g := grid.value;
      FlagCountSet(g, p, toggled);
      SetSameLayout(g, p, toggled);
      grid := Some(Set(grid.value, p, toggled));
      LayoutKept(g, grid.value, rowCount, colCount, minePositions);
      if square.isFlagged {
        remainingMineCount := remainingMineCount + 1;
      } else {
        remainingMineCount := remainingMineCount - 1;
      }
    }

    /** The win threshold of `checkWin`. */
    predicate ThresholdMet()
      reads this
    {
      |OpenedSquares()| >= rowCount * colCount - mineCount
    }

    /** `checkWin`: WIN once the opened squares reach the non-mine count; otherwise nothing. */
    method CheckWin()
      modifies this`status
      ensures ThresholdMet() ==> status == Win
      ensures !ThresholdMet() ==> status == old(status)
    {
      if |OpenedSquares()| >= rowCount * colCount - mineCount {
        End(true);
      }
    }

    /**
     * `openEmptyNeighbors`: drains a work-list seeded with the target's neighbours, opening
     * every unopened square it pops and queueing the neighbours of the empty ones. Only
     * opened squares are skipped, yet started from an empty square it reaches no mine,
     * because only neighbours of empty squares are ever queued.
     */
    method OpenEmptyNeighbors(row: int, col: int)
      requires Valid() && (grid.Some? ==> 0 <= row < |grid.value|)
      modifies this`grid
      ensures Valid()
      ensures old(grid).None? || !Inside(old(grid).value, Coord(col, row)) ==> grid == old(grid)
      ensures old(grid).Some? && Inside(old(grid).value, Coord(col, row)) ==>
                grid.Some? && Flooded(old(grid).value, grid.value, Coord(col, row))
    {
      if grid.None? {
        return;
      }
      var p := Coord(col, row);
      if !Inside(grid.value, p) {
        return;
      }
      ghost var g := grid.value;
      var target := At(grid.value, p);
      var neighbors := GetNeighbors(target.row, target.col);
      FloodStart(g, p, rowCount, colCount);
      while |neighbors| > 0
        invariant grid.Some? && FloodInv(g, grid.value, neighbors, p, rowCount, colCount)
        decreases Unopened(grid.value), |neighbors|
      {
        neighbors := FloodPop(g, p, neighbors);
      }
      FloodDone(g, grid.value, p, rowCount, colCount);
      LayoutKept(g, grid.value, rowCount, colCount, minePositions);
    }

    /**
     * One turn of the `openEmptyNeighbors` loop: pop the last position; unless it is already
     * opened, open it and, when it is empty, push its neighbours.
     */
    method FloodPop(ghost g: Grid, p: Coord, neighbors: seq<Coord>) returns (rest: seq<Coord>)
      requires grid.Some? && |neighbors| > 0 && FloodInv(g, grid.value, neighbors, p, rowCount, colCount)
      modifies this`grid
      ensures grid.Some? && FloodInv(g, grid.value, rest, p, rowCount, colCount)
      ensures Unopened(grid.value) < Unopened(old(grid).value) || (grid == old(grid) && |rest| < |neighbors|)
    {
      var q := neighbors[|neighbors| - 1];
      ghost var h := grid.value;
      rest := neighbors[..|neighbors| - 1];
      FloodTop(g, h, neighbors, p, rowCount, colCount);
      var square := At(grid.value, q);
      if square.isOpened {
        FloodSkip(g, h, neighbors, p, rowCount, colCount);
        return;
      }
      var pushed := if square.IsEmpty() then GetNeighbors(square.row, square.col) else [];
      assert pushed == if At(h, q).IsEmpty() then GridNeighbors(h, q.row, q.col) else [];
      FloodOpen(g, h, neighbors, pushed, p, rowCount, colCount);
      rest := rest + pushed;
      grid := Some(OpenAt(grid.value, q));
    }

    /**
     * `openSquare`: a flagged square is left alone. Otherwise a mine ends the game as lost and
     * is opened all the same, an empty square first floods its surroundings, and the square
     * ends opened and unflagged; no other mine is touched.
     */
    method OpenSquare(row: int, col: int)
      requires Valid() && (grid.Some? ==> Inside(grid.value, Coord(col, row)))
      modifies this`grid, this`status
      ensures Valid() && (grid.None? <==> old(grid).None?)
      ensures old(grid).None? || At(old(grid).value, Coord(col, row)).isFlagged ==>
                grid == old(grid) && status == old(status)
      ensures old(grid).Some? && !At(old(grid).value, Coord(col, row)).isFlagged ==>
                Revealed(old(grid).value, grid.value, Coord(col, row)) &&
                status == if At(old(grid).value, Coord(col, row)).isMine then Lose else old(status)
      ensures old(grid).Some? && !At(old(grid).value, Coord(col, row)).isFlagged &&
              !At(old(grid).value, Coord(col, row)).IsEmpty() ==>
                grid == Some(OpenAt(old(grid).value, Coord(col, row)))
    {
      if grid.None? {
        return;
      }
      var p := Coord(col, row);
      var square := At(grid.value, p);
      if square.isFlagged {
        return;
      }
      ghost var g := grid.value;
      if square.isMine {
        End(false);
      }
      if square.IsEmpty() {
        OpenEmptyNeighbors(row, col);
      }
      OpenSquareDone(g, grid.value, p, rowCount, colCount, minePositions);
      grid := Some(OpenAt(grid.value, p));
    }

    /**
     * `openAllGridSquares`: every square of the grid is opened where it lies, flags and all;
     * afterwards the opened squares are all rowCount * colCount of them.
     */
    method OpenAllGridSquares()
      requires Valid()
      modifies this`grid
      ensures Valid() && (old(grid).None? ==> grid == old(grid))
      ensures old(grid).Some? ==>
                grid.Some? && SameShape(old(grid).value, grid.value) &&
                forall p :: Inside(old(grid).value, p) ==>
                  At(grid.value, p) == At(old(grid).value, p).(isOpened := true)
      ensures old(grid).Some? ==> |OpenedSquares()| == rowCount * colCount
    {
      if grid.None? {
        return;
      }
      ghost var g := grid.value;
      var rows := |grid.value|;
      for r := 0 to rows
        invariant grid.Some? && SameShape(g, grid.value)
        invariant forall p :: Inside(g, p) ==>
                    At(grid.value, p) == if p.row < r then At(g, p).(isOpened := true) else At(g, p)
      {
        for c := 0 to |grid.value[r]|
          invariant grid.Some? && SameShape(g, grid.value)
          invariant forall p :: Inside(g, p) ==>
                      At(grid.value, p) ==
                        if p.row < r || (p.row == r && p.col < c) then At(g, p).(isOpened := true) else At(g, p)
        {
          grid := Some(Set(grid.value, Coord(c, r), At(grid.value, Coord(c, r)).(isOpened := true)));
        }
      }
      LayoutKept(g, grid.value, rowCount, colCount, minePositions);
      FullyOpenedCount(grid.value, rowCount, colCount);
    }

    /**
     * `openNeighborSquares`: every neighbour that carries no flag when its turn comes is
     * opened as `openSquare` opens it. The game is lost exactly when an unflagged mine is
     * among the neighbours; mines elsewhere are untouched.
     */
    method OpenNeighborSquares(row: int, col: int)
      requires Valid()
      modifies this`grid, this`status
      ensures Valid() && (grid.None? <==> old(grid).None?)
      ensures old(grid).None? ==> status == old(status)
      ensures old(grid).Some? ==>
                Chorded(old(grid).value, grid.value, GridNeighbors(old(grid).value, row, col), old(status), status)
    {
      var neighbors := GetNeighbors(row, col);
      ghost var g := grid;
      ghost var status0 := status;
      if g.Some? {
        GridNeighborsDistinct(g.value, row, col);
        ChordedStart(g.value, status0);
      }
      for i := 0 to |neighbors|
        invariant Valid() && (grid.None? <==> g.None?)
        invariant g.None? ==> neighbors == [] && status == status0
        invariant g.Some? ==> neighbors == GridNeighbors(g.value, row, col) && Distinct(neighbors)
        invariant g.Some? ==> Chorded(g.value, grid.value, neighbors[..i], status0, status)
      {
        var n := neighbors[i];
        PrefixExtends(neighbors, i);
        ChordedInside(g.value, grid.value, neighbors, i, status0, status);
        if At(grid.value, n).isFlagged {
          ChordedSkip(g.value, grid.value, neighbors[..i], n, status0, status);
          continue;
        }
        ghost var h := grid.value;
        ghost var before := status;
        assert n == Coord(n.col, n.row);
        OpenSquare(n.row, n.col);
        ChordedOpen(g.value, h, grid.value, neighbors[..i], n, status0, before, status);
      }
      assert neighbors[..|neighbors|] == neighbors;
    }

    /**
     * The chord of the class view (`handleDoubleClickSquare`): when the flags around a square
     * match its count, its neighbours are opened; otherwise nothing happens.
     */
    method Chord(row: int, col: int)
      requires Valid() && (grid.Some? ==> Inside(grid.value, Coord(col, row)))
      modifies this`grid, this`status
      ensures Valid() && (grid.None? <==> old(grid).None?)
      ensures old(grid).None? ==> status == old(status)
      ensures old(grid).Some? ==>
                var g := old(grid).value;
                var ns := GridNeighbors(g, row, col);
                if At(g, Coord(col, row)).neighborMineCount == FlaggedAmong(g, ns) then
                  Chorded(g, grid.value, ns, old(status), status)
                else
                  grid == old(grid) && status == old(status)
    {
      if grid.None? {
        return;
      }
      var square := At(grid.value, Coord(col, row));
      var neighbors := GetNeighbors(row, col);
      var flaggedNeighbors := FlaggedAmong(grid.value, neighbors);
      if square.neighborMineCount == flaggedNeighbors {
        OpenNeighborSquares(row, col);
      }
    }

    /**
     * `start`: the clicked square's flat index becomes the start position, the grid is
     * built around it, the clicked square (never a mine) is opened and the game is on.
     */
    method Start(row: nat, col: nat, draws: seq<nat>)
      requires row < rowCount && col < colCount && |draws| == mineCount
      modifies this`startPosition, this`grid, this`minePositions, this`status
      ensures Valid() && status == Ongoing
      ensures startPosition == StartPosition(colCount, row, col)
      ensures minePositions == Drawn(InitialPool(rowCount * colCount, startPosition), draws)
      ensures grid.Some? && Revealed(NewGrid(rowCount, colCount, minePositions), grid.value, Coord(col, row))
      ensures !At(grid.value, Coord(col, row)).isMine
      ensures var built := NewGrid(rowCount, colCount, minePositions);
              !At(built, Coord(col, row)).IsEmpty() ==> grid.value == OpenAt(built, Coord(col, row))
    {
      startPosition := StartPosition(colCount, row, col);
      CreateBoardGrid(draws);
      StartGridReady(rowCount, colCount, row, col, draws);
      OpenSquare(row, col);
      status := Ongoing;
    }
  }

  /** The grid built for a first click at (row, col) is valid and its start square a closed non-mine. */
  lemma StartGridReady(rowCount: nat, colCount: nat, row: nat, col: nat, draws: seq<nat>)
    requires row < rowCount && col < colCount
    ensures var positions := Drawn(InitialPool(rowCount * colCount, StartPosition(colCount, row, col)), draws);
            var g := NewGrid(rowCount, colCount, positions);
            BoardGrid(g, rowCount, colCount) && MinesAt(g, colCount, positions) &&
            Inside(g, Coord(col, row)) && !At(g, Coord(col, row)).isMine && !At(g, Coord(col, row)).isFlagged
  {
    var positions := Drawn(InitialPool(rowCount * colCount, StartPosition(colCount, row, col)), draws);
    NewGridIsBoardGrid(rowCount, colCount, positions);
    StartSquareSafe(rowCount, colCount, row, col, draws);
  }

  /** The neighbour coordinates are exactly the in-bounds adjacent positions. */
  lemma NeighborCoordinatesFacts(rowCount: int, colCount: int, row: int, col: int)
    ensures forall c :: c in NeighborCoordinates(rowCount, colCount, row, col) <==>
              InBounds(rowCount, colCount, c) && Adjacent(row, col, c)
  {
    forall c {
      NeighborCoordinatesExact(rowCount, colCount, row, col, c);
    }
  }

  // ---------------------------------------------------------------------------
  // The class flood-fill (`openEmptyNeighbors`) and `openSquare`, step by step
  // ---------------------------------------------------------------------------

  /**
   * What `openEmptyNeighbors` from p leaves behind: squares only grew open, every neighbour
   * of p and of each empty square it opened is opened, every square opened is reached from a
   * neighbour of p through empty squares opened before it, and when p itself is empty no mine
   * was touched.
   */
  ghost predicate Flooded(g: Grid, h: Grid, p: Coord)
    requires Inside(g, p)
  {
    Grows(g, h) && Surrounded(h, p, false) && FloodClosed(g, h, false) &&
    OpenedWithin(g, h, GridNeighbors(g, p.row, p.col)) &&
    (At(g, p).IsEmpty() ==> NoNewMine(g, h))
  }

  /**
   * What `openSquare` on an unflagged p leaves behind: p is opened and unflagged, squares
   * only grew open, every empty square opened on the way is surrounded by opened squares,
   * and so is p itself when it is empty, even when it was opened before (the class floods
   * again from it); every other square opened is reached from the seed of p through empty
   * squares opened before it, and no mine other than p changed.
   */
  ghost predicate Revealed(g: Grid, h: Grid, p: Coord)
  {
    Inside(g, p) && Grows(g, h) && FloodClosed(g, h, false) && At(h, p) == Opened(At(g, p)) &&
    (At(g, p).IsEmpty() ==> Surrounded(h, p, false)) &&
    OpenedWithin(g, h, Seed(g, p)) &&
    forall q :: Inside(g, q) && q != p && At(g, q).isMine ==> At(h, q) == At(g, q)
  }

  /** The loop invariant of the class flood-fill from target p. */
  ghost predicate FloodInv(g: Grid, h: Grid, stack: seq<Coord>, p: Coord, rowCount: nat, colCount: nat)
  {
    BoardGrid(g, rowCount, colCount) && Inside(g, p) && WellFormed(h) &&
    WorkListInv(g, h, stack, p, false) && QueuedWithin(g, h, stack, GridNeighbors(g, p.row, p.col)) &&
    (At(g, p).IsEmpty() ==> NoNewMine(g, h) && forall n :: n in stack ==> !At(g, n).isMine)
  }

  lemma FloodStart(g: Grid, p: Coord, rowCount: nat, colCount: nat)
    requires BoardGrid(g, rowCount, colCount) && Inside(g, p)
    ensures FloodInv(g, g, GridNeighbors(g, p.row, p.col), p, rowCount, colCount)
  {
    WorkListStart(g, p, false);
    QueuedStart(g, GridNeighbors(g, p.row, p.col));
    if At(g, p).IsEmpty() {
      EmptyHasNoMineNeighbor(g, p);
    }
  }

  /** The position on top of the work-list is on the grid, which keeps the board's dimensions. */
  lemma FloodTop(g: Grid, h: Grid, stack: seq<Coord>, p: Coord, rowCount: nat, colCount: nat)
    requires FloodInv(g, h, stack, p, rowCount, colCount) && |stack| > 0
    ensures var q := stack[|stack| - 1];
            Inside(h, q) && At(h, q).row == q.row && At(h, q).col == q.col
    ensures WellFormed(h) && |h| == rowCount && Cols(h) == colCount
  {
    assert stack[|stack| - 1] in stack;
  }

  lemma FloodSkip(g: Grid, h: Grid, stack: seq<Coord>, p: Coord, rowCount: nat, colCount: nat)
    requires FloodInv(g, h, stack, p, rowCount, colCount) && |stack| > 0
    requires Inside(h, stack[|stack| - 1]) && At(h, stack[|stack| - 1]).isOpened
    ensures FloodInv(g, h, stack[..|stack| - 1], p, rowCount, colCount)
  {
    var rest, q := stack[..|stack| - 1], stack[|stack| - 1];
    PopLast(stack);
    WorkListSkip(g, h, rest, q, p, false);
    QueuedSkip(g, h, rest, q, GridNeighbors(g, p.row, p.col));
    forall n | n in rest ensures n in stack {
    }
  }

  /**
   * Opening the square on top of the work-list and queueing its neighbours when it is empty
   * keeps the invariant and strictly shrinks the unopened set; started from an empty target,
   * the popped square is no mine and neither is any neighbour queued after it.
   */
  lemma FloodOpen(g: Grid, h: Grid, stack: seq<Coord>, pushed: seq<Coord>, p: Coord, rowCount: nat, colCount: nat)
    requires FloodInv(g, h, stack, p, rowCount, colCount) && |stack| > 0
    requires Inside(h, stack[|stack| - 1]) && !At(h, stack[|stack| - 1]).isOpened
    requires var q := stack[|stack| - 1];
             pushed == if At(h, q).IsEmpty() then GridNeighbors(h, q.row, q.col) else []
    ensures FloodInv(g, OpenAt(h, stack[|stack| - 1]), stack[..|stack| - 1] + pushed, p, rowCount, colCount)
    ensures Unopened(OpenAt(h, stack[|stack| - 1])) < Unopened(h)
  {
    var rest, q := stack[..|stack| - 1], stack[|stack| - 1];
    var h' := OpenAt(h, q);
    PopLast(stack);
    WorkListOpen(g, h, rest, q, p, false);
    QueuedOpen(g, h, rest, q, GridNeighbors(g, p.row, p.col));
    OpenAtShrinks(h, q);
    OpenAtGrows(h, q);
    GrowsSameLayout(h, h');
    SameLayoutWellFormed(h, h');
    if At(g, p).IsEmpty() {
      FloodOpenMineFree(g, h, stack, pushed);
    }
  }

  /** From an empty target: the popped square is no mine, and neither is anything queued. */
  lemma FloodOpenMineFree(g: Grid, h: Grid, stack: seq<Coord>, pushed: seq<Coord>)
    requires WellFormed(g) && Consistent(g) && Grows(g, h) && NoNewMine(g, h) && |stack| > 0
    requires forall n :: n in stack ==> Inside(g, n) && !At(g, n).isMine
    requires Inside(h, stack[|stack| - 1]) && !At(h, stack[|stack| - 1]).isOpened
    requires var q := stack[|stack| - 1];
             pushed == if At(h, q).IsEmpty() then GridNeighbors(h, q.row, q.col) else []
    ensures NoNewMine(g, OpenAt(h, stack[|stack| - 1]))
    ensures forall n :: n in stack[..|stack| - 1] + pushed ==> Inside(g, n) && !At(g, n).isMine
  {
    var rest, q := stack[..|stack| - 1], stack[|stack| - 1];
    assert q in stack;
    assert At(h, q) == At(g, q);
    if At(h, q).IsEmpty() {
      EmptyHasNoMineNeighbor(g, q);
      SameShapeNeighbors(g, h, q.row, q.col);
    }
    forall n | n in rest + pushed ensures Inside(g, n) && !At(g, n).isMine {
      if n in rest {
        assert n in stack;
      } else {
        assert n in GridNeighbors(g, q.row, q.col) && Inside(g, n);
      }
    }
  }

  lemma FloodDone(g: Grid, h: Grid, p: Coord, rowCount: nat, colCount: nat)
    requires FloodInv(g, h, [], p, rowCount, colCount)
    ensures Flooded(g, h, p) && SameLayout(g, h)
  {
    WorkListDone(g, h, p, false);
    QueuedDone(g, h, GridNeighbors(g, p.row, p.col));
    GrowsSameLayout(g, h);
  }

  /** Opening p itself after the flood (or without one, when p is not empty) reveals p. */
  lemma OpenSquareDone(g: Grid, h: Grid, p: Coord, rowCount: nat, colCount: nat, positions: seq<Option<int>>)
    requires BoardGrid(g, rowCount, colCount) && MinesAt(g, colCount, positions)
    requires Inside(g, p) && !At(g, p).isFlagged
    requires if At(g, p).IsEmpty() then Flooded(g, h, p) else h == g
    ensures Inside(h, p)
    ensures Revealed(g, OpenAt(h, p), p)
    ensures BoardGrid(OpenAt(h, p), rowCount, colCount) && MinesAt(OpenAt(h, p), colCount, positions)
  {
    var h' := OpenAt(h, p);
    if At(g, p).IsEmpty() {
      FloodedTarget(g, h, p);
    } else {
      NumberedTarget(g, p);
    }
    GrowsSameLayout(g, h');
    LayoutKept(g, h', rowCount, colCount, positions);
  }

  /** Opening an empty p after its flood keeps the flood closed and bounded. */
  lemma FloodedTarget(g: Grid, h: Grid, p: Coord)
    requires WellFormed(g) && Inside(g, p) && !At(g, p).isFlagged && At(g, p).IsEmpty()
    requires Flooded(g, h, p)
    ensures Inside(h, p) && Revealed(g, OpenAt(h, p), p)
  {
    var h' := OpenAt(h, p);
    OpenAtGrows(h, p);
    GrowsTrans(g, h, h');
    OpenedWithinSeed(g, h, p);
    SurroundedGrows(h, h', p, false);
    forall r | Inside(h, r) && !At(h, r).isOpened && At(h', r).isOpened && At(h', r).IsEmpty()
      ensures Surrounded(h', r, false)
    {
      assert r == p;
    }
    FloodClosedTrans(g, h, h', false);
  }

  /** Opening a square that is not empty opens it alone. */
  lemma NumberedTarget(g: Grid, p: Coord)
    requires Inside(g, p) && !At(g, p).isFlagged && !At(g, p).IsEmpty()
    ensures Revealed(g, OpenAt(g, p), p)
  {
    OpenAtGrows(g, p);
    OpenAtWithin(g, p);
    assert Seed(g, p) == [p];
  }

  /** The one-row board [empty and opened, empty and closed]. */
  function ReopenRow(): (g: Grid)
    ensures |g| == 1 && |g[0]| == 2
  {
    [[Square(0, 0, 0, false, false, true), Square(0, 1, 0, false, false, false)]]
  }

  /** In `ReopenRow` the closed square is a neighbour of the opened one, on any grid of its shape. */
  lemma ReopenNeighbor(h: Grid)
    requires SameShape(ReopenRow(), h)
    ensures Coord(1, 0) in GridNeighbors(h, 0, 0) && Inside(h, Coord(1, 0))
  {
    NeighborCoordinatesExact(1, 2, 0, 0, Coord(1, 0));
  }

  /**
   * `openSquare` on the opened empty square of `ReopenRow` floods again, so its closed
   * neighbour ends opened: leaving the grid as it was does not meet `Revealed`.
   */
  lemma ReopenFloods(h: Grid)
    requires Revealed(ReopenRow(), h, Coord(0, 0))
    ensures At(h, Coord(1, 0)).isOpened
  {
    ReopenNeighbor(h);
  }

  /** The same for a chord whose neighbour is the opened empty square of `ReopenRow`. */
  lemma ReopenChordFloods(h: Grid, status0: BoardStatus, status: BoardStatus)
    requires Chorded(ReopenRow(), h, [Coord(0, 0)], status0, status)
    ensures At(h, Coord(1, 0)).isOpened
  {
    var g, p := ReopenRow(), Coord(0, 0);
    assert p in [p] && !At(g, p).isFlagged && At(g, p).IsEmpty();
    assert Surrounded(h, p, false);
    ReopenNeighbor(h);
  }

  // ---------------------------------------------------------------------------
  // The class chord (`openNeighborSquares`), neighbour by neighbour
  // ---------------------------------------------------------------------------

  /**
   * After the chord has handled the neighbours `done` of a grid g, starting from status
   * `status0`: squares only grew open and every empty square opened is surrounded; every
   * neighbour unflagged in g is opened, and surrounded by opened squares when it is empty,
   * even when it was opened before the chord; every square opened is reached, through empty squares
   * opened before it, from the seeds of the members of `done` unflagged in g (so a flagged
   * neighbour is opened only when a flood reaches it); mines outside `done` are untouched; and
   * the game is lost exactly when an unflagged mine was among `done` (else the status is kept).
   */
  ghost predicate Chorded(g: Grid, h: Grid, done: seq<Coord>, status0: BoardStatus, status: BoardStatus)
  {
    Grows(g, h) && FloodClosed(g, h, false) && OpenedWithin(g, h, Seeds(g, Unflagged(g, done))) &&
    (forall n :: n in done ==> Inside(g, n) && (!At(g, n).isFlagged ==> At(h, n).isOpened)) &&
    (forall n :: n in done && !At(g, n).isFlagged && At(g, n).IsEmpty() ==> Surrounded(h, n, false)) &&
    (forall q :: Inside(g, q) && At(g, q).isMine && q !in done ==> At(h, q) == At(g, q)) &&
    status == if UnflaggedMineAmong(g, done) then Lose else status0
  }

  lemma ChordedStart(g: Grid, status0: BoardStatus)
    ensures Chorded(g, g, [], status0, status0)
  {
    OpenedWithinNone(g, Seeds(g, Unflagged(g, [])));
  }

  /** The neighbour whose turn it is lies on the current grid. */
  lemma ChordedInside(g: Grid, h: Grid, ns: seq<Coord>, i: int, status0: BoardStatus, status: BoardStatus)
    requires WellFormed(g) && 0 <= i < |ns| && (forall n :: n in ns ==> Inside(g, n))
    requires Chorded(g, h, ns[..i], status0, status)
    ensures Inside(g, ns[i]) && Inside(h, ns[i])
  {
    assert ns[i] in ns;
  }

  /** A neighbour flagged now was flagged in g, so skipping it changes nothing. */
  lemma ChordedSkip(g: Grid, h: Grid, done: seq<Coord>, n: Coord, status0: BoardStatus, status: BoardStatus)
    requires Chorded(g, h, done, status0, status) && Inside(g, n) && At(h, n).isFlagged
    ensures Chorded(g, h, done + [n], status0, status)
  {
    assert At(h, n) == At(g, n);
    assert (done + [n])[..|done|] == done;
    assert Unflagged(g, done + [n]) == Unflagged(g, done);
    if UnflaggedMineAmong(g, done + [n]) {
      var m :| m in done + [n] && Inside(g, m) && At(g, m).isMine && !At(g, m).isFlagged;
      assert m in done;
    }
  }

  /** Opening a neighbour unflagged now loses the game exactly when it was an unflagged mine of g. */
  lemma ChordedOpen(g: Grid, h: Grid, next: Grid, done: seq<Coord>, n: Coord,
                    status0: BoardStatus, status: BoardStatus, status': BoardStatus)
    requires Chorded(g, h, done, status0, status) && Inside(g, n) && n !in done
    requires !At(h, n).isFlagged && Revealed(h, next, n)
    requires status' == if At(h, n).isMine then Lose else status
    ensures Chorded(g, next, done + [n], status0, status')
  {
    GrowsTrans(g, h, next);
    FloodClosedTrans(g, h, next, false);
    ChordedBound(g, h, next, done, n);
    ChordedSurrounded(g, h, next, done, n);
    if At(g, n).isMine {
      assert At(h, n) == At(g, n);
    }
    if UnflaggedMineAmong(g, done + [n]) && !UnflaggedMineAmong(g, done) {
      var m :| m in done + [n] && Inside(g, m) && At(g, m).isMine && !At(g, m).isFlagged;
      assert m == n;
    }
    if At(g, n).isMine && !At(g, n).isFlagged {
      assert UnflaggedMineAmong(g, done + [n]);
    }
  }

  /** The neighbours surrounded so far stay so, and an empty n is surrounded once revealed. */
  lemma ChordedSurrounded(g: Grid, h: Grid, next: Grid, done: seq<Coord>, n: Coord)
    requires Grows(g, h) && Inside(g, n) && Revealed(h, next, n)
    requires forall m :: m in done && Inside(g, m) && !At(g, m).isFlagged && At(g, m).IsEmpty() ==> Surrounded(h, m, false)
    ensures forall m :: m in done + [n] && Inside(g, m) && !At(g, m).isFlagged && At(g, m).IsEmpty() ==> Surrounded(next, m, false)
  {
    forall m | m in done + [n] && Inside(g, m) && !At(g, m).isFlagged && At(g, m).IsEmpty() ensures Surrounded(next, m, false) {
      if m in done {
        SurroundedGrows(h, next, m, false);
      } else {
        assert At(h, n).IsEmpty();
      }
    }
  }

  /** The reveal of the next unflagged neighbour n stays within the chord's roots with n's seed. */
  lemma ChordedBound(g: Grid, h: Grid, next: Grid, done: seq<Coord>, n: Coord)
    requires Grows(g, h) && OpenedWithin(g, h, Seeds(g, Unflagged(g, done))) && Inside(g, n)
    requires !At(h, n).isFlagged && Grows(h, next) && OpenedWithin(h, next, Seed(h, n))
    ensures OpenedWithin(g, next, Seeds(g, Unflagged(g, done + [n])))
  {
    SameShapeNeighbors(g, h, n.row, n.col);
    assert Seed(h, n) == Seed(g, n);
    assert (done + [n])[..|done|] == done;
    ChordedRoots(g, h, done, n);
    OpenedWithinThen(g, h, next, Seeds(g, Unflagged(g, done)), Seed(g, n), Seeds(g, Unflagged(g, done + [n])));
  }

  /**
   * The roots of the chord grow by the seed of n when n is unflagged in g. When n was
   * flagged in g but is no longer, a flood opened it, so its seed is reached through it.
   */
  lemma ChordedRoots(g: Grid, h: Grid, done: seq<Coord>, n: Coord)
    requires Grows(g, h) && Inside(g, n) && !At(h, n).isFlagged
    requires (done + [n])[..|done|] == done
    ensures forall x :: x in Seeds(g, Unflagged(g, done)) ==> x in Seeds(g, Unflagged(g, done + [n]))
    ensures forall x :: x in Seed(g, n) && Inside(h, x) && !At(h, x).isOpened ==>
              x in Seeds(g, Unflagged(g, done + [n])) || NextToOpenedEmpty(g, h, x)
  {
    var u := Unflagged(g, done);
    if At(g, n).isFlagged {
      assert Unflagged(g, done + [n]) == u;
      UnflaggedByFlood(g, h, n);
    } else {
      assert Unflagged(g, done + [n]) == u + [n];
      assert (u + [n])[..|u|] == u;
      assert Seeds(g, u + [n]) == Seeds(g, u) + Seed(g, n);
    }
  }

  /** A square flagged in g and unflagged in h was opened by a flood, which went on to its seed. */
  lemma UnflaggedByFlood(g: Grid, h: Grid, n: Coord)
    requires Grows(g, h) && Inside(g, n) && At(g, n).isFlagged && !At(h, n).isFlagged
    ensures forall x :: x in Seed(g, n) && Inside(h, x) && !At(h, x).isOpened ==> NextToOpenedEmpty(g, h, x)
  {
    assert NewlyOpened(g, h, n);
    forall x | x in Seed(g, n) && Inside(h, x) && !At(h, x).isOpened
      ensures NextToOpenedEmpty(g, h, x)
    {
      assert x != n;
      assert FloodsTo(g, n, x);
    }
  }
}
