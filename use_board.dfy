/**
 * The board as the running app drives it: the `useBoard` hook
 * (src/components/board-component/use-board.tsx). Its grid helpers work on a grid value
 * (the hook mutates a deep copy); its React state is the class `Board`, and the two
 * effects that follow a state change are explicit methods.
 */
module UseBoard {
  import opened Wrappers
  import opened Squares
  import opened Neighbors
  import opened Placement
  import opened Grid

  /**
   * `openEmptyNeighbors`: drains a work-list seeded with the target's neighbours, opening
   * every unopened non-mine square it pops and queueing the neighbours of the empty ones.
   */
  method OpenEmptyNeighbors(g: Grid, row: int, col: int) returns (h: Grid)
    requires WellFormed(g) && Inside(g, Coord(col, row))
    ensures Grows(g, h) && NoNewMine(g, h)
    ensures Surrounded(h, Coord(col, row), true)
    ensures FloodClosed(g, h, true)
    ensures OpenedWithin(g, h, GridNeighbors(g, row, col))
  {
    var target := Coord(col, row);
    h := g;
    var neighbors := GridNeighbors(g, row, col);
    ghost var roots := neighbors;
    WorkListStart(g, target, true);
    QueuedStart(g, roots);
    while |neighbors| > 0
      invariant FloodInv(g, h, neighbors, target, roots)
      decreases Unopened(h), |neighbors|
    {
      var q := neighbors[|neighbors| - 1];
      FloodTop(g, h, neighbors, target, roots);
      var square := At(h, q);
      if square.isOpened || square.isMine {
        FloodSkip(g, h, neighbors, target, roots);
        neighbors := neighbors[..|neighbors| - 1];
        continue;
      }
      FloodOpen(g, h, neighbors, target, roots);
      neighbors := neighbors[..|neighbors| - 1];
      if square.IsEmpty() {
        neighbors := neighbors + GridNeighbors(h, q.row, q.col);
      }
      h := OpenAt(h, q);
    }
    WorkListDone(g, h, target, true);
    QueuedDone(g, h, roots);
  }

  /** The loop invariant of the hook's flood-fill from target, whose work-list began as roots. */
  ghost predicate FloodInv(g: Grid, h: Grid, stack: seq<Coord>, target: Coord, roots: seq<Coord>)
  {
    WellFormed(g) && WorkListInv(g, h, stack, target, true) && NoNewMine(g, h) &&
    QueuedWithin(g, h, stack, roots)
  }

  lemma FloodTop(g: Grid, h: Grid, stack: seq<Coord>, target: Coord, roots: seq<Coord>)
    requires FloodInv(g, h, stack, target, roots) && |stack| > 0
    ensures Inside(h, stack[|stack| - 1])
  {
    assert stack[|stack| - 1] in stack;
  }

  /** Popping an opened square or a mine keeps the invariant. */
  lemma FloodSkip(g: Grid, h: Grid, stack: seq<Coord>, target: Coord, roots: seq<Coord>)
    requires FloodInv(g, h, stack, target, roots) && |stack| > 0
    requires var q := stack[|stack| - 1];
             Inside(h, q) && (At(h, q).isOpened || At(h, q).isMine)
    ensures FloodInv(g, h, stack[..|stack| - 1], target, roots)
  {
    var rest, q := stack[..|stack| - 1], stack[|stack| - 1];
    PopLast(stack);
    WorkListSkip(g, h, rest, q, target, true);
    QueuedSkip(g, h, rest, q, roots);
  }

  /**
   * Opening the popped square, an unopened non-mine, and queueing its neighbours when it is
   * empty keeps the invariant and shrinks the unopened set.
   */
  lemma FloodOpen(g: Grid, h: Grid, stack: seq<Coord>, target: Coord, roots: seq<Coord>)
    requires FloodInv(g, h, stack, target, roots) && |stack| > 0
    requires var q := stack[|stack| - 1];
             Inside(h, q) && !At(h, q).isOpened && !At(h, q).isMine
    ensures var rest, q := stack[..|stack| - 1], stack[|stack| - 1];
            FloodInv(g, OpenAt(h, q),
                     if At(h, q).IsEmpty() then rest + GridNeighbors(h, q.row, q.col) else rest,
                     target, roots)
    ensures Unopened(OpenAt(h, stack[|stack| - 1])) < Unopened(h)
  {
    var rest, q := stack[..|stack| - 1], stack[|stack| - 1];
    PopLast(stack);
    WorkListOpen(g, h, rest, q, target, true);
    QueuedOpen(g, h, rest, q, roots);
    OpenAtShrinks(h, q);
    assert rest + [] == rest;
  }

  /**
   * `openSquare`: a flagged or opened square is left alone; a mine only reports the hit
   * (`onBoom`) and leaves the grid as it was; otherwise an empty square first floods its
   * surroundings and the square itself ends opened and unflagged.
   */
  method OpenSquare(g: Grid, row: int, col: int) returns (h: Grid, boomed: bool)
    requires WellFormed(g) && Inside(g, Coord(col, row))
    ensures var s := At(g, Coord(col, row));
            boomed <==> !s.isFlagged && !s.isOpened && s.isMine
    ensures var s := At(g, Coord(col, row));
            s.isFlagged || s.isOpened || s.isMine ==> h == g
    ensures Grows(g, h) && NoNewMine(g, h) && FloodClosed(g, h, true)
    ensures var s := At(g, Coord(col, row));
            !s.isFlagged && !s.isMine ==> At(h, Coord(col, row)).isOpened
    ensures var s := At(g, Coord(col, row));
            !s.isFlagged && !s.isOpened && !s.isMine && !s.IsEmpty() ==> h == OpenAt(g, Coord(col, row))
    ensures OpenedWithin(g, h, [Coord(col, row)])
  {
    var p := Coord(col, row);
    var square := At(g, p);
    h, boomed := g, false;
    if square.isFlagged || square.isOpened || square.isMine {
      OpenedWithinNone(g, [p]);
      boomed := !square.isFlagged && !square.isOpened;
      return;
    }
    if square.IsEmpty() {
      h := OpenEmptyNeighbors(h, row, col);
    }
    var afterOpen := OpenAt(h, p);
    OpenAtGrows(h, p);
    GrowsTrans(g, h, afterOpen);
    if square.IsEmpty() {
      SurroundedGrows(h, afterOpen, p, true);
      FloodClosedTrans(g, h, afterOpen, true);
      OpenedWithinTarget(g, h, p);
    } else {
      OpenAtWithin(g, p);
    }
    h := afterOpen;
  }

  /**
   * The loop of `openNeighborSquares` on the deep copy: every neighbour that is not flagged
   * when its turn comes goes through `openSquare`. Every square opened is reached from the
   * neighbours unflagged at the start, and a flagged neighbour is left as it was unless a flood
   * through an empty square reaches it. The hit is reported exactly when some neighbour is a
   * mine that is neither flagged nor opened.
   */
  method OpenNeighborsOnCopy(g: Grid, row: int, col: int) returns (h: Grid, boomed: bool)
    requires WellFormed(g)
    ensures boomed <==> LiveMineAmong(g, GridNeighbors(g, row, col))
    ensures Grows(g, h) && NoNewMine(g, h) && FloodClosed(g, h, true)
    ensures forall n :: n in GridNeighbors(g, row, col) && !At(g, n).isFlagged && !At(g, n).isMine ==>
              At(h, n).isOpened
    ensures !boomed ==> forall n :: n in GridNeighbors(g, row, col) && !At(g, n).isFlagged ==>
              At(h, n).isOpened
    ensures OpenedWithin(g, h, Unflagged(g, GridNeighbors(g, row, col)))
    ensures forall n :: n in GridNeighbors(g, row, col) && At(g, n).isFlagged ==>
              At(h, n) == At(g, n) || NextToOpenedEmpty(g, h, n)
  {
    h, boomed := g, false;
    var neighbors := GridNeighbors(h, row, col);
    OpenedWithinNone(g, Unflagged(g, []));
    for i := 0 to |neighbors|
      invariant ChordLoopInv(g, h, neighbors[..i], boomed)
    {
      var n := neighbors[i];
      assert n in neighbors && n == Coord(n.col, n.row);
      PrefixExtends(neighbors, i);
      var square := At(h, n);
      if square.isFlagged {
        ChordSkip(g, h, neighbors[..i], n, boomed);
        continue;
      }
      GrowsSameLayout(g, h);
      SameLayoutWellFormed(g, h);
      var next, hit := OpenSquare(h, n.row, n.col);
      ChordOpen(g, h, next, neighbors[..i], n, boomed, hit);
      h := next;
      boomed := boomed || hit;
    }
    assert neighbors[..|neighbors|] == neighbors;
    ChordDone(g, h, neighbors, boomed);
    assert neighbors == GridNeighbors(g, row, col);
  }

  lemma ChordDone(g: Grid, h: Grid, ns: seq<Coord>, boomed: bool)
    requires ChordLoopInv(g, h, ns, boomed)
    ensures boomed <==> LiveMineAmong(g, ns)
    ensures Grows(g, h) && NoNewMine(g, h) && FloodClosed(g, h, true)
    ensures forall n :: n in ns && !At(g, n).isFlagged && !At(g, n).isMine ==> At(h, n).isOpened
    ensures !boomed ==> forall n :: n in ns && !At(g, n).isFlagged ==> At(h, n).isOpened
    ensures OpenedWithin(g, h, Unflagged(g, ns))
    ensures forall n :: n in ns && At(g, n).isFlagged ==> At(h, n) == At(g, n) || NextToOpenedEmpty(g, h, n)
  {
    if !boomed {
      forall n | n in ns && !At(g, n).isFlagged ensures At(h, n).isOpened {
        if At(g, n).isMine && !At(g, n).isOpened {
          assert LiveMineAmong(g, ns);
        }
      }
    }
    forall n | n in ns && At(g, n).isFlagged
      ensures At(h, n) == At(g, n) || NextToOpenedEmpty(g, h, n)
    {
      OpenedWithinOutside(g, h, Unflagged(g, ns), n);
    }
  }

  /** What the chord loop has established after visiting the neighbours in `done`. */
  ghost predicate ChordLoopInv(g: Grid, h: Grid, done: seq<Coord>, boomed: bool)
  {
    Grows(g, h) && NoNewMine(g, h) && FloodClosed(g, h, true) &&
    OpenedWithin(g, h, Unflagged(g, done)) &&
    (forall n :: n in done ==> Inside(g, n)) &&
    (boomed <==> LiveMineAmong(g, done)) &&
    (forall n :: n in done && !At(g, n).isFlagged && !At(g, n).isMine ==> At(h, n).isOpened) &&
    (forall n :: n in done && !At(g, n).isFlagged && At(g, n).isOpened ==> At(h, n).isOpened)
  }

  lemma ChordSkip(g: Grid, h: Grid, done: seq<Coord>, n: Coord, boomed: bool)
    requires ChordLoopInv(g, h, done, boomed) && Inside(g, n) && At(h, n).isFlagged
    ensures ChordLoopInv(g, h, done + [n], boomed)
  {
    assert At(g, n).isFlagged;
    assert (done + [n])[..|done|] == done;
    assert Unflagged(g, done + [n]) == Unflagged(g, done);
    forall x | x in done ensures x in done + [n] {
    }
    if LiveMineAmong(g, done + [n]) {
      var m :| m in done + [n] && Inside(g, m) && At(g, m).isMine && !At(g, m).isFlagged && !At(g, m).isOpened;
      assert m in done;
    }
  }

  lemma ChordOpen(g: Grid, h: Grid, next: Grid, done: seq<Coord>, n: Coord, boomed: bool, hit: bool)
    requires ChordLoopInv(g, h, done, boomed) && Inside(g, n) && !At(h, n).isFlagged
    requires hit <==> !At(h, n).isOpened && At(h, n).isMine
    requires Grows(h, next) && NoNewMine(h, next) && FloodClosed(h, next, true)
    requires !At(h, n).isMine ==> At(next, n).isOpened
    requires OpenedWithin(h, next, [n])
    ensures ChordLoopInv(g, next, done + [n], boomed || hit)
  {
    GrowsTrans(g, h, next);
    assert !At(h, n).isOpened ==> At(h, n) == At(g, n);
    OpenedWithinThen(g, h, next, Unflagged(g, done), [n], Unflagged(g, done + [n]));
    FloodClosedTrans(g, h, next, true);
    assert At(g, n).isMine ==> At(h, n) == At(g, n);
    if LiveMineAmong(g, done + [n]) {
      var m :| m in done + [n] && Inside(g, m) && At(g, m).isMine && !At(g, m).isFlagged && !At(g, m).isOpened;
      if m != n { assert m in done; }
    }
    if boomed {
      var m :| m in done && Inside(g, m) && At(g, m).isMine && !At(g, m).isFlagged && !At(g, m).isOpened;
      assert m in done + [n];
    }
    if hit {
      assert n in done + [n];
    }
  }

  /** `openAllGridSquares`: every square ends opened; flags and everything else stay. */
  method OpenAllGridSquares(g: Grid) returns (h: Grid)
    ensures SameShape(g, h) && SameLayout(g, h)
    ensures forall p :: Inside(g, p) ==> At(h, p) == At(g, p).(isOpened := true)
    ensures (forall p :: Inside(g, p) ==> At(g, p).isOpened) ==> h == g
  {
    h := g;
    for r := 0 to |g|
      invariant SameShape(g, h)
      invariant forall p :: Inside(g, p) ==>
                  At(h, p) == if p.row < r then At(g, p).(isOpened := true) else At(g, p)
    {
      for c := 0 to |g[r]|
        invariant SameShape(g, h)
        invariant forall p :: Inside(g, p) ==>
                    At(h, p) == if p.row < r || (p.row == r && p.col < c) then At(g, p).(isOpened := true) else At(g, p)
      {
        h := Set(h, Coord(c, r), At(h, Coord(c, r)).(isOpened := true));
      }
    }
    if forall p :: Inside(g, p) ==> At(g, p).isOpened {
      GridEq(g, h);
    }
  }

  /**
   * The hook's React state (`grid`, `status`, `remainingMineCount`) together with the
   * dimensions it was created with. Each operation is one call from the view; the two
   * effects that React runs after a change of `grid` or `status` are `AfterGridChange` and
   * `AfterStatusChange`, and the caller runs them after the operation.
   */
  class Board {
    const rowCount: nat
    const colCount: nat
    const mineCount: nat
    var grid: Option<Grid>
    var status: BoardStatus
    var remainingMineCount: int

    /**
     * There is a grid exactly when the game has left READY, and a grid present is a board
     * grid of the dimensions.
     */
    ghost predicate Valid()
      reads this
    {
      (status == Ready <==> grid.None?) &&
      (grid.Some? ==> BoardGrid(grid.value, rowCount, colCount))
    }

    /** The initial state, which the `restart` effect on the dimensions also sets. */
    constructor (rowCount: nat, colCount: nat, mineCount: nat)
      ensures Valid()
      ensures this.rowCount == rowCount && this.colCount == colCount && this.mineCount == mineCount
      ensures grid == None && status == Ready && remainingMineCount == mineCount
    {
      this.rowCount, this.colCount, this.mineCount := rowCount, colCount, mineCount;
      grid, status, remainingMineCount := None, Ready, mineCount;
    }

    /**
     * `initMinesPositions`: the start position is spliced out of the pool, then one draw per
     * mine splices the drawn index out and records what then sits at that index.
     * `draws` stands for the values of `Math.floor(Math.random() * positionPool.length)`.
     */
    method InitMinesPositions(startPosition: nat, draws: seq<nat>) returns (positions: seq<Option<int>>)
      requires |draws| == mineCount
      ensures positions == Drawn(InitialPool(rowCount * colCount, startPosition), draws)
      ensures |positions| == mineCount && Some(startPosition) !in positions
      ensures forall k :: 0 <= k < |positions| && positions[k].Some? ==>
                0 <= positions[k].value < rowCount * colCount
    {
      var limit := rowCount * colCount;
      var positionPool := Range(limit);
      positionPool := Splice(positionPool, startPosition);
      positions := [];
      for i := 0 to mineCount
        invariant positions + Drawn(positionPool, draws[i..]) == Drawn(InitialPool(limit, startPosition), draws)
      {
        var positionIndex := draws[i];
        assert draws[i..][1..] == draws[i + 1..];
        positionPool := Splice(positionPool, positionIndex);
        positions := positions + [Read(positionPool, positionIndex)];
      }
      assert draws[mineCount..] == [];
      StartNeverDrawn(limit, startPosition, draws);
    }

    /**
     * `addSquare`: pushes onto the last row the square for (row, col), a mine exactly when its
     * flat index was recorded, counting the recorded positions among its neighbours.
     */
    method AddSquare(g: Grid, row: nat, col: nat, minePositions: seq<Option<int>>) returns (h: Grid)
      requires |g| == row + 1
      ensures |h| == |g| && forall r :: 0 <= r < row ==> h[r] == g[r]
      ensures h[row] == g[row] + [NewSquareAt(rowCount, colCount, row, col, minePositions)]
    {
      var square := NewSquareAt(rowCount, colCount, row, col, minePositions);
      h := g[row := g[row] + [square]];
    }

    /** `createBoardGrid`: rows are pushed one by one, each filled by `addSquare`. */
    method CreateBoardGrid(startPosition: nat, draws: seq<nat>) returns (g: Grid)
      requires |draws| == mineCount
      ensures g == NewGrid(rowCount, colCount, Drawn(InitialPool(rowCount * colCount, startPosition), draws))
      ensures BoardGrid(g, rowCount, colCount)
      ensures forall p :: Inside(g, p) ==> !At(g, p).isOpened && !At(g, p).isFlagged
    {
      var minePositions := InitMinesPositions(startPosition, draws);
      ghost var full := NewGrid(rowCount, colCount, minePositions);
      g := [];
      for row := 0 to rowCount
        invariant |g| == row && forall r :: 0 <= r < row ==> g[r] == full[r]
      {
        g := g + [[]];
        for col := 0 to colCount
          invariant |g| == row + 1 && g[row] == full[row][..col]
          invariant forall r :: 0 <= r < row ==> g[r] == full[r]
        {
          assert full[row][col] == NewSquareAt(rowCount, colCount, row, col, minePositions);
          PrefixExtends(full[row], col);
          g := AddSquare(g, row, col, minePositions);
        }
        assert |full[row]| == colCount && full[row][..|full[row]|] == full[row];
        ghost var built := g;
        assert built[row] == full[row];
        forall r | 0 <= r < row + 1 ensures built[r] == full[r] {
          if r < row {
            assert built[r] == full[r];
          }
        }
      }
      assert g == full;
      NewGridIsBoardGrid(rowCount, colCount, minePositions);
    }

    /**
     * The grid updater of `start`: builds the grid around the clicked square, which
     * therefore holds no mine, and opens that square (flooding if it is empty).
     */
    method StartGrid(row: nat, col: nat, draws: seq<nat>) returns (h: Grid)
      requires row < rowCount && col < colCount && |draws| == mineCount
      ensures BoardGrid(h, rowCount, colCount) && At(h, Coord(col, row)).isOpened
      ensures var built := NewGrid(rowCount, colCount,
                                   Drawn(InitialPool(rowCount * colCount, StartPosition(colCount, row, col)), draws));
              Grows(built, h) && NoNewMine(built, h) && FloodClosed(built, h, true) &&
              OpenedWithin(built, h, [Coord(col, row)]) &&
              (!At(built, Coord(col, row)).IsEmpty() ==> h == OpenAt(built, Coord(col, row)))
    {
      var startPosition := StartPosition(colCount, row, col);
      var g := CreateBoardGrid(startPosition, draws);
      assert Inside(g, Coord(col, row)) && !At(g, Coord(col, row)).isMine && !At(g, Coord(col, row)).isFlagged by {
        StartSquareSafe(rowCount, colCount, row, col, draws);
      }
      ghost var built := NewGrid(rowCount, colCount,
                                 Drawn(InitialPool(rowCount * colCount, StartPosition(colCount, row, col)), draws));
      assert g == built;
      var boomed;
      h, boomed := OpenSquare(g, row, col);
      GrowsSameLayout(g, h);
      SameLayoutBoardGrid(g, h, rowCount, colCount);
    }

    /** `start`: the new grid is committed and the game moves to ONGOING; the counter stays. */
    method Start(row: nat, col: nat, draws: seq<nat>)
      requires Valid() && row < rowCount && col < colCount && |draws| == mineCount
      modifies this
      ensures Valid() && status == Ongoing && grid.Some?
      ensures remainingMineCount == old(remainingMineCount)
      ensures var built := NewGrid(rowCount, colCount,
                                   Drawn(InitialPool(rowCount * colCount, StartPosition(colCount, row, col)), draws));
              Grows(built, grid.value) && NoNewMine(built, grid.value) && FloodClosed(built, grid.value, true) &&
              OpenedWithin(built, grid.value, [Coord(col, row)]) &&
              (!At(built, Coord(col, row)).IsEmpty() ==> grid.value == OpenAt(built, Coord(col, row)))
      ensures At(grid.value, Coord(col, row)).isOpened
    {
      var h := StartGrid(row, col, draws);
      grid, status := Some(h), Ongoing;
    }

    /** `restart`: back to READY with no grid and the full flag budget. */
    method Restart()
      modifies this
      ensures Valid() && grid == None && status == Ready && remainingMineCount == mineCount
    {
      grid, status, remainingMineCount := None, Ready, mineCount;
    }

    /** `end`. */
    method End(win: bool)
      requires Valid() && grid.Some?
      modifies this`status
      ensures Valid() && status == if win then Win else Lose
    {
      status := if win then Win else Lose;
    }

    /**
     * `sweep`: reveals on a copy and commits it only when no mine was hit; a hit leaves the
     * grid exactly as it was and loses the game.
     */
    method Sweep(row: int, col: int)
      requires Valid() && (grid.Some? ==> Inside(grid.value, Coord(col, row)))
      modifies this
      ensures Valid() && remainingMineCount == old(remainingMineCount)
      ensures old(grid).None? ==> grid == old(grid) && status == old(status)
      ensures old(grid).Some? ==>
                var g, s := old(grid).value, At(old(grid).value, Coord(col, row));
                if !s.isFlagged && !s.isOpened && s.isMine then
                  grid == old(grid) && status == Lose
                else
                  status == old(status) && grid.Some? &&
                  Grows(g, grid.value) && NoNewMine(g, grid.value) && FloodClosed(g, grid.value, true) &&
                  (s.isFlagged || s.isOpened ==> grid == old(grid)) &&
                  (!s.isFlagged ==> At(grid.value, Coord(col, row)).isOpened) &&
                  (!s.isFlagged && !s.isOpened && !s.IsEmpty() ==> grid == Some(OpenAt(g, Coord(col, row)))) &&
                  OpenedWithin(g, grid.value, [Coord(col, row)])
    {
      if grid.None? {
        return;
      }
      var g := grid.value;
      var h, boomed := OpenSquare(g, row, col);
      if boomed {
        End(false);
      } else {
        GrowsSameLayout(g, h);
        SameLayoutBoardGrid(g, h, rowCount, colCount);
        grid := Some(h);
      }
    }

    /**
     * `flag`: on an unopened square toggles the flag and moves the counter the other way,
     * so the counter plus the number of flags on the grid never changes.
     */
    method Flag(row: int, col: int)
      requires Valid() && (grid.Some? ==> Inside(grid.value, Coord(col, row)))
      modifies this
      ensures Valid() && status == old(status)
      ensures remainingMineCount + Flags(grid) == old(remainingMineCount + Flags(grid))
      ensures old(grid).None? || At(old(grid).value, Coord(col, row)).isOpened ==>
                grid == old(grid) && remainingMineCount == old(remainingMineCount)
      ensures old(grid).Some? && !At(old(grid).value, Coord(col, row)).isOpened ==>
                var p, s := Coord(col, row), At(old(grid).value, Coord(col, row));
                grid == Some(Set(old(grid).value, p, s.(isFlagged := !s.isFlagged))) &&
                remainingMineCount == old(remainingMineCount) + (if s.isFlagged then 1 else -1)
    {
      if grid.None? {
        return;
      }
      var g := grid.value;
      var p := Coord(col, row);
      var square := At(g, p);
      if square.isOpened {
        return;
      }
      var toggled := square.(isFlagged := !square.isFlagged);
      FlagCountSet(g, p, toggled);
      SetBoardGrid(g, p, toggled, rowCount, colCount);
      grid := Some(Set(g, p, toggled));
      if square.isFlagged {
        remainingMineCount := remainingMineCount + 1;
      } else {
        remainingMineCount := remainingMineCount - 1;
      }
    }

    /**
     * `openNeighborSquares`: the chord loop runs on a copy, which is committed only when no
     * neighbour was a live mine; otherwise the grid stays as it was and the game is lost.
     */
    method OpenNeighborSquares(row: int, col: int)
      requires Valid()
      modifies this
      ensures Valid() && remainingMineCount == old(remainingMineCount)
      ensures old(grid).None? ==> grid == old(grid) && status == old(status)
      ensures old(grid).Some? ==>
                var g := old(grid).value;
                if LiveMineAmong(g, GridNeighbors(g, row, col)) then
                  grid == old(grid) && status == Lose
                else
                  status == old(status) && grid.Some? &&
                  Grows(g, grid.value) && NoNewMine(g, grid.value) && FloodClosed(g, grid.value, true) &&
                  OpenedWithin(g, grid.value, Unflagged(g, GridNeighbors(g, row, col))) &&
                  forall n :: n in GridNeighbors(g, row, col) && !At(g, n).isFlagged ==>
                    At(grid.value, n).isOpened
    {
      if grid.None? {
        return;
      }
      var g := grid.value;
      var h, boomed := OpenNeighborsOnCopy(g, row, col);
      if boomed {
        End(false);
      } else {
        GrowsSameLayout(g, h);
        SameLayoutBoardGrid(g, h, rowCount, colCount);
        grid := Some(h);
      }
    }

    /**
     * `sweepAround`: the chord runs only when the flagged neighbours number exactly the
     * square's count; otherwise nothing changes.
     */
    method SweepAround(row: int, col: int)
      requires Valid() && (grid.Some? ==> Inside(grid.value, Coord(col, row)))
      modifies this
      ensures Valid() && remainingMineCount == old(remainingMineCount)
      ensures old(grid).None? ==> grid == old(grid) && status == old(status)
      ensures old(grid).Some? ==>
                var g := old(grid).value;
                if At(g, Coord(col, row)).neighborMineCount != FlaggedAmong(g, GridNeighbors(g, row, col)) then
                  grid == old(grid) && status == old(status)
                else if LiveMineAmong(g, GridNeighbors(g, row, col)) then
                  grid == old(grid) && status == Lose
                else
                  status == old(status) && grid.Some? &&
                  Grows(g, grid.value) && NoNewMine(g, grid.value) && FloodClosed(g, grid.value, true) &&
                  OpenedWithin(g, grid.value, Unflagged(g, GridNeighbors(g, row, col))) &&
                  forall n :: n in GridNeighbors(g, row, col) && !At(g, n).isFlagged ==>
                    At(grid.value, n).isOpened
    {
      if grid.None? {
        return;
      }
      var g := grid.value;
      var square := At(g, Coord(col, row));
      var neighbors := GridNeighbors(g, row, col);
      var flaggedNeighbors := FlaggedAmong(g, neighbors);
      if square.neighborMineCount == flaggedNeighbors {
        OpenNeighborSquares(row, col);
      }
    }

    /** The win threshold of `checkWin`: opened squares number at least the non-mine squares. */
    predicate ThresholdMet(g: Grid)
    {
      |OpenedSquaresOf(g)| >= rowCount * colCount - mineCount
    }

    /** `checkWin`: WIN once at least all the non-mine squares' worth of squares are opened. */
    method CheckWin()
      requires Valid()
      modifies this`status
      ensures Valid()
      ensures grid.Some? && ThresholdMet(grid.value) ==> status == Win
      ensures !(grid.Some? && ThresholdMet(grid.value)) ==> status == old(status)
    {
      if grid.None? {
        return;
      }
      var openedSquares := OpenedSquaresOf(grid.value);
      if |openedSquares| >= rowCount * colCount - mineCount {
        assert ThresholdMet(grid.value);
        End(true);
      }
    }

    /** `openSquares`: every square of the grid is opened; flags and mines stay as they are. */
    method OpenSquares()
      requires Valid()
      modifies this`grid
      ensures Valid() && (grid.None? <==> old(grid).None?)
      ensures grid.Some? ==>
                SameShape(old(grid).value, grid.value) &&
                forall p :: Inside(grid.value, p) ==>
                  At(grid.value, p) == At(old(grid).value, p).(isOpened := true)
    {
      if grid.None? {
        return;
      }
      var g := grid.value;
      var h := OpenAllGridSquares(g);
      SameLayoutBoardGrid(g, h, rowCount, colCount);
      grid := Some(h);
    }

    /** The effect on `grid`: a committed grid of a game in progress is checked for a win. */
    method AfterGridChange()
      requires Valid()
      modifies this`status
      ensures Valid()
      ensures grid.Some? && old(status) == Ongoing && ThresholdMet(grid.value) ==> status == Win
      ensures !(grid.Some? && old(status) == Ongoing && ThresholdMet(grid.value)) ==> status == old(status)
    {
      if grid.Some? && status == Ongoing {
        CheckWin();
      }
    }

    /** The effect on `status`: a decided game opens every square. */
    method AfterStatusChange()
      requires Valid()
      modifies this`grid
      ensures Valid() && (grid.None? <==> old(grid).None?)
      ensures old(status) in {Win, Lose} && grid.Some? ==>
                SameShape(old(grid).value, grid.value) &&
                forall p :: Inside(grid.value, p) ==>
                  At(grid.value, p) == At(old(grid).value, p).(isOpened := true)
      ensures old(status) !in {Win, Lose} ==> grid == old(grid)
    {
      if status == Win || status == Lose {
        OpenSquares();
      }
    }
  }
}
