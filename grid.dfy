/**
 * The grid both boards share (the `Grid` type and `BOARD_STATUS` of src/models/board.ts):
 * access to squares, neighbours measured on the grid, the neighbour-count invariant,
 * the freshly built grid, and the relations that describe what a reveal may change.
 */
module Grid {
  import opened Wrappers
  import opened Squares
  import opened Neighbors
  import opened Placement

  /** `BOARD_STATUS`. */
  datatype BoardStatus = Ready | Ongoing | Win | Lose

  /** Rows of squares, row-major. */
  type Grid = seq<seq<Square>>

  /** `grid[0].length`, or 0 for a grid without rows. */
  function Cols(g: Grid): nat
  {
    if |g| == 0 then 0 else |g[0]|
  }

  predicate Inside(g: Grid, p: Coord)
  {
    0 <= p.row < |g| && 0 <= p.col < |g[p.row]|
  }

  function At(g: Grid, p: Coord): Square
    requires Inside(g, p)
  {
    g[p.row][p.col]
  }

  /** Rectangular, and every square carries its own position. */
  ghost predicate WellFormed(g: Grid)
  {
    forall r :: 0 <= r < |g| ==>
      |g[r]| == Cols(g) && forall c :: 0 <= c < |g[r]| ==> g[r][c].row == r && g[r][c].col == c
  }

  /** A well-formed grid of the board's dimensions whose counts agree with its mines. */
  ghost predicate BoardGrid(g: Grid, rowCount: nat, colCount: nat)
  {
    WellFormed(g) && |g| == rowCount && (rowCount > 0 ==> Cols(g) == colCount) && Consistent(g)
  }

  ghost predicate SameShape(g: Grid, h: Grid)
  {
    |h| == |g| && forall r :: 0 <= r < |g| ==> |h[r]| == |g[r]|
  }

  /** Replaces one square, as the source's in-place field updates do. */
  function Set(g: Grid, p: Coord, s: Square): (h: Grid)
    requires Inside(g, p)
    ensures SameShape(g, h)
    ensures forall q :: Inside(g, q) ==> At(h, q) == if q == p then s else At(g, q)
  {
    g[p.row := g[p.row][p.col := s]]
  }

  /** `square.isFlagged = false; square.isOpened = true` on the square at p. */
  function OpenAt(g: Grid, p: Coord): (h: Grid)
    requires Inside(g, p)
    ensures SameShape(g, h)
    ensures forall q :: Inside(g, q) ==> At(h, q) == if q == p then Opened(At(g, p)) else At(g, q)
  {
    Set(g, p, Opened(At(g, p)))
  }

  /** `getNeighbors(grid, row, col)`: neighbours measured on the grid; none for an empty grid. */
  function GridNeighbors(g: Grid, row: int, col: int): (r: seq<Coord>)
    ensures |r| <= 8
    ensures WellFormed(g) ==> forall n :: n in r ==> Inside(g, n)
  {
    if |g| <= 0 || |g[0]| <= 0 then [] else NeighborCoordinates(|g|, |g[0]|, row, col)
  }

  /** A prefix one longer is the prefix and the next element. */
  lemma PrefixExtends<T>(s: seq<T>, i: int)
    requires 0 <= i < |s|
    ensures s[..i + 1] == s[..i] + [s[i]]
  {
  }

  /** A non-empty sequence is its front followed by its last element. */
  lemma PopLast<T>(s: seq<T>)
    requires |s| > 0
    ensures s == s[..|s| - 1] + [s[|s| - 1]]
  {
  }

  /** No neighbour position is listed twice. */
  lemma GridNeighborsDistinct(g: Grid, row: int, col: int)
    ensures Distinct(GridNeighbors(g, row, col))
  {
    if |g| > 0 && |g[0]| > 0 {
      NeighborCoordinatesDistinct(|g|, |g[0]|, row, col);
    }
  }

  lemma SameShapeNeighbors(g: Grid, h: Grid, row: int, col: int)
    requires SameShape(g, h)
    ensures GridNeighbors(g, row, col) == GridNeighbors(h, row, col)
  {
  }

  /** Mines among the listed positions. */
  function MinesAmong(g: Grid, ns: seq<Coord>): (k: nat)
    ensures k <= |ns|
  {
    if ns == [] then 0
    else (if Inside(g, ns[0]) && At(g, ns[0]).isMine then 1 else 0) + MinesAmong(g, ns[1..])
  }

  /** Flagged squares among the listed positions. */
  function FlaggedAmong(g: Grid, ns: seq<Coord>): (k: nat)
    ensures k <= |ns|
  {
    if ns == [] then 0
    else (if Inside(g, ns[0]) && At(g, ns[0]).isFlagged then 1 else 0) + FlaggedAmong(g, ns[1..])
  }

  /** Every square's count is the number of mines among its neighbours. */
  ghost predicate Consistent(g: Grid)
  {
    forall p :: Inside(g, p) ==> At(g, p).neighborMineCount == MinesAmong(g, GridNeighbors(g, p.row, p.col))
  }

  /** Same shape, and every square keeps its position, its mine and its count. */
  ghost predicate SameLayout(g: Grid, h: Grid)
  {
    SameShape(g, h) &&
    forall p :: Inside(g, p) ==>
      At(h, p).row == At(g, p).row && At(h, p).col == At(g, p).col &&
      At(h, p).isMine == At(g, p).isMine && At(h, p).neighborMineCount == At(g, p).neighborMineCount
  }

  /** Replacing a square by one with the same position, mine and count keeps a consistent board. */
  lemma SetBoardGrid(g: Grid, p: Coord, s: Square, rowCount: nat, colCount: nat)
    requires BoardGrid(g, rowCount, colCount) && Inside(g, p)
    requires s.row == At(g, p).row && s.col == At(g, p).col
    requires s.isMine == At(g, p).isMine && s.neighborMineCount == At(g, p).neighborMineCount
    ensures BoardGrid(Set(g, p, s), rowCount, colCount)
  {
    SetSameLayout(g, p, s);
    SameLayoutBoardGrid(g, Set(g, p, s), rowCount, colCount);
  }

  /** Replacing a square by one with the same position, mine and count keeps the layout. */
  lemma SetSameLayout(g: Grid, p: Coord, s: Square)
    requires Inside(g, p)
    requires s.row == At(g, p).row && s.col == At(g, p).col
    requires s.isMine == At(g, p).isMine && s.neighborMineCount == At(g, p).neighborMineCount
    ensures SameLayout(g, Set(g, p, s))
  {
  }

  lemma {:induction false} MinesAmongSameLayout(g: Grid, h: Grid, ns: seq<Coord>)
    requires SameLayout(g, h)
    ensures MinesAmong(g, ns) == MinesAmong(h, ns)
  {
    if ns != [] {
      MinesAmongSameLayout(g, h, ns[1..]);
    }
  }

  lemma SameLayoutWellFormed(g: Grid, h: Grid)
    requires SameLayout(g, h) && WellFormed(g)
    ensures WellFormed(h)
  {
    forall r | 0 <= r < |h|
      ensures |h[r]| == Cols(h) && forall c :: 0 <= c < |h[r]| ==> h[r][c].row == r && h[r][c].col == c
    {
      forall c | 0 <= c < |h[r]| ensures h[r][c].row == r && h[r][c].col == c {
        assert At(h, Coord(c, r)) == h[r][c] && At(g, Coord(c, r)) == g[r][c];
      }
    }
  }

  /** Changing only flags and openings keeps a board grid a board grid. */
  lemma SameLayoutBoardGrid(g: Grid, h: Grid, rowCount: nat, colCount: nat)
    requires SameLayout(g, h) && BoardGrid(g, rowCount, colCount)
    ensures BoardGrid(h, rowCount, colCount)
  {
    SameLayoutWellFormed(g, h);
    forall p | Inside(h, p)
      ensures At(h, p).neighborMineCount == MinesAmong(h, GridNeighbors(h, p.row, p.col))
    {
      SameShapeNeighbors(g, h, p.row, p.col);
      MinesAmongSameLayout(g, h, GridNeighbors(g, p.row, p.col));
    }
  }

  lemma {:induction false} NoMinesAmong(g: Grid, ns: seq<Coord>)
    requires MinesAmong(g, ns) == 0
    ensures forall n :: n in ns && Inside(g, n) ==> !At(g, n).isMine
  {
    if ns != [] {
      NoMinesAmong(g, ns[1..]);
    }
  }

  /** On a consistent grid no neighbour of an empty square is a mine. */
  lemma EmptyHasNoMineNeighbor(g: Grid, p: Coord)
    requires Consistent(g) && Inside(g, p) && At(g, p).IsEmpty()
    ensures forall n :: n in GridNeighbors(g, p.row, p.col) && Inside(g, n) ==> !At(g, n).isMine
  {
    NoMinesAmong(g, GridNeighbors(g, p.row, p.col));
  }

  // ---------------------------------------------------------------------------
  // The freshly built grid (createBoardGrid / addSquare)
  // ---------------------------------------------------------------------------

  /** The flat index `row * colCount + col` of a position. */
  function FlatIndex(colCount: int, p: Coord): int
  {
    p.row * colCount + p.col
  }

  /** The flat index of a square given by natural coordinates, typed as the pool's index. */
  function StartPosition(colCount: nat, row: nat, col: nat): nat
  {
    FlatIndex(colCount, Coord(col, row))
  }

  /** How many listed positions have their flat index among the recorded mine positions. */
  function PositionsIn(ns: seq<Coord>, colCount: int, positions: seq<Option<int>>): (k: nat)
    ensures k <= |ns|
  {
    if ns == [] then 0
    else (if Some(FlatIndex(colCount, ns[0])) in positions then 1 else 0)
         + PositionsIn(ns[1..], colCount, positions)
  }

  /** The square `addSquare` pushes for (row, col). */
  function NewSquareAt(rowCount: nat, colCount: nat, row: int, col: int, positions: seq<Option<int>>): (s: Square)
    ensures s.row == row && s.col == col && !s.isFlagged && !s.isOpened
    ensures s.isMine <==> Some(FlatIndex(colCount, Coord(col, row))) in positions
    ensures s.neighborMineCount
         == PositionsIn(NeighborCoordinates(rowCount, colCount, row, col), colCount, positions)
    ensures 0 <= s.neighborMineCount <= 8
  {
    var square := NewSquare(row, col, Some(FlatIndex(colCount, Coord(col, row))) in positions);
    square.(neighborMineCount :=
      PositionsIn(NeighborCoordinates(rowCount, colCount, row, col), colCount, positions))
  }

  /** The grid `createBoardGrid` builds from the recorded mine positions. */
  function NewGrid(rowCount: nat, colCount: nat, positions: seq<Option<int>>): (g: Grid)
    ensures |g| == rowCount
    ensures forall r :: 0 <= r < rowCount ==> |g[r]| == colCount
    ensures forall r, c :: 0 <= r < rowCount && 0 <= c < colCount ==>
              g[r][c] == NewSquareAt(rowCount, colCount, r, c, positions)
  {
    seq(rowCount, r requires 0 <= r < rowCount =>
      seq(colCount, c requires 0 <= c < colCount => NewSquareAt(rowCount, colCount, r, c, positions)))
  }

  lemma {:induction false} MinesAmongNewGrid(rowCount: nat, colCount: nat, positions: seq<Option<int>>, ns: seq<Coord>)
    requires forall n :: n in ns ==> InBounds(rowCount, colCount, n)
    ensures MinesAmong(NewGrid(rowCount, colCount, positions), ns) == PositionsIn(ns, colCount, positions)
  {
    if ns != [] {
      var g := NewGrid(rowCount, colCount, positions);
      var n := ns[0];
      assert n in ns;
      assert Inside(g, n);
      assert At(g, n) == NewSquareAt(rowCount, colCount, n.row, n.col, positions);
      assert At(g, n).isMine == (Some(FlatIndex(colCount, n)) in positions);
      MinesAmongNewGrid(rowCount, colCount, positions, ns[1..]);
    }
  }

  /**
   * Neighbour-count correctness: in the built grid a square is a mine exactly when its flat
   * index was recorded, and its count equals a brute-force recount of the mines around it.
   */
  lemma NewGridIsBoardGrid(rowCount: nat, colCount: nat, positions: seq<Option<int>>)
    ensures var g := NewGrid(rowCount, colCount, positions);
            BoardGrid(g, rowCount, colCount)
            && (forall p :: Inside(g, p) ==> !At(g, p).isOpened && !At(g, p).isFlagged)
            && (forall p :: Inside(g, p) ==> (At(g, p).isMine <==> Some(FlatIndex(colCount, p)) in positions))
  {
    var g := NewGrid(rowCount, colCount, positions);
    forall p | Inside(g, p)
      ensures At(g, p) == NewSquareAt(rowCount, colCount, p.row, p.col, positions)
    {
    }
    forall p | Inside(g, p)
      ensures At(g, p).neighborMineCount == MinesAmong(g, GridNeighbors(g, p.row, p.col))
    {
      var ns := NeighborCoordinates(rowCount, colCount, p.row, p.col);
      assert GridNeighbors(g, p.row, p.col) == ns;
      MinesAmongNewGrid(rowCount, colCount, positions, ns);
    }
    assert WellFormed(g);
  }

  /** First-click safety: on a grid built from the draws around the start, the start is no mine. */
  lemma StartSquareSafe(rowCount: nat, colCount: nat, row: nat, col: nat, draws: seq<nat>)
    requires row < rowCount && col < colCount
    ensures var g := NewGrid(rowCount, colCount,
                             Drawn(InitialPool(rowCount * colCount, StartPosition(colCount, row, col)), draws));
            Inside(g, Coord(col, row)) && !At(g, Coord(col, row)).isMine
  {
    var start := StartPosition(colCount, row, col);
    assert start == FlatIndex(colCount, Coord(col, row));
    var positions := Drawn(InitialPool(rowCount * colCount, start), draws);
    StartNeverDrawn(rowCount * colCount, start, draws);
    var g := NewGrid(rowCount, colCount, positions);
    assert At(g, Coord(col, row)) == NewSquareAt(rowCount, colCount, row, col, positions);
  }

  // ---------------------------------------------------------------------------
  // What a reveal may change
  // ---------------------------------------------------------------------------

  /** Squares only ever go from unopened to opened-and-unflagged; nothing else moves. */
  ghost predicate Grows(g: Grid, h: Grid)
  {
    SameShape(g, h) &&
    forall p :: Inside(g, p) ==>
      At(h, p) == At(g, p) || (!At(g, p).isOpened && At(h, p) == Opened(At(g, p)))
  }

  /** Mine squares are left exactly as they were. */
  ghost predicate NoNewMine(g: Grid, h: Grid)
  {
    SameShape(g, h) && forall p :: Inside(g, p) && At(g, p).isMine ==> At(h, p) == At(g, p)
  }

  /** Every neighbour of p is opened (or, when mines are skipped, a mine). */
  ghost predicate Surrounded(g: Grid, p: Coord, skipMines: bool)
  {
    forall n :: n in GridNeighbors(g, p.row, p.col) && Inside(g, n) ==>
      At(g, n).isOpened || (skipMines && At(g, n).isMine)
  }

  /** As Surrounded, except that neighbours still waiting on the work-list are allowed. */
  ghost predicate Pending(g: Grid, stack: seq<Coord>, p: Coord, skipMines: bool)
  {
    forall n :: n in GridNeighbors(g, p.row, p.col) && Inside(g, n) ==>
      At(g, n).isOpened || (skipMines && At(g, n).isMine) || n in stack
  }

  /** The reveal-closure: every empty square opened on the way from g to h is surrounded. */
  ghost predicate FloodClosed(g: Grid, h: Grid, skipMines: bool)
  {
    SameShape(g, h) &&
    forall p :: Inside(g, p) && !At(g, p).isOpened && At(h, p).isOpened && At(h, p).IsEmpty() ==>
      Surrounded(h, p, skipMines)
  }

  lemma GrowsTrans(a: Grid, b: Grid, c: Grid)
    requires Grows(a, b) && Grows(b, c)
    ensures Grows(a, c)
  {
  }

  lemma GrowsSameLayout(g: Grid, h: Grid)
    requires Grows(g, h)
    ensures SameLayout(g, h)
  {
  }

  lemma OpenAtGrows(g: Grid, p: Coord)
    requires Inside(g, p) && (!At(g, p).isOpened || !At(g, p).isFlagged)
    ensures Grows(g, OpenAt(g, p))
  {
  }

  lemma SurroundedGrows(g: Grid, h: Grid, p: Coord, skipMines: bool)
    requires Grows(g, h) && Surrounded(g, p, skipMines)
    ensures Surrounded(h, p, skipMines)
  {
    SameShapeNeighbors(g, h, p.row, p.col);
  }

  lemma FloodClosedTrans(a: Grid, b: Grid, c: Grid, skipMines: bool)
    requires Grows(a, b) && Grows(b, c)
    requires FloodClosed(a, b, skipMines) && FloodClosed(b, c, skipMines)
    ensures FloodClosed(a, c, skipMines)
  {
    forall p | Inside(a, p) && !At(a, p).isOpened && At(c, p).isOpened && At(c, p).IsEmpty()
      ensures Surrounded(c, p, skipMines)
    {
      if At(b, p).isOpened {
        SurroundedGrows(b, c, p, skipMines);
      }
    }
  }

  /** q is an empty square and x one of its neighbours: a flood that opens q goes on to x. */
  ghost predicate FloodsTo(g: Grid, q: Coord, x: Coord)
  {
    Inside(g, q) && At(g, q).IsEmpty() && x in GridNeighbors(g, q.row, q.col)
  }

  /** x is one of the roots or a neighbour of an empty square among `before`. */
  ghost predicate Fed(g: Grid, before: seq<Coord>, roots: seq<Coord>, x: Coord)
  {
    x in roots || exists q :: q in before && FloodsTo(g, q, x)
  }

  /** Each listed position is a root or a neighbour of an empty square listed before it. */
  ghost predicate Reaches(g: Grid, order: seq<Coord>, roots: seq<Coord>)
  {
    forall i :: 0 <= i < |order| ==> Fed(g, order[..i], roots, order[i])
  }

  /** x was unopened in g and is opened in h. */
  ghost predicate NewlyOpened(g: Grid, h: Grid, x: Coord)
  {
    Inside(g, x) && Inside(h, x) && !At(g, x).isOpened && At(h, x).isOpened
  }

  /** `order` lists exactly the squares opened on the way from g to h, each reached from the roots. */
  ghost predicate OpenOrder(g: Grid, h: Grid, order: seq<Coord>, roots: seq<Coord>)
  {
    SameShape(g, h) && Reaches(g, order, roots) && forall x :: x in order <==> NewlyOpened(g, h, x)
  }

  /**
   * The upper bound of a reveal: the squares opened on the way from g to h can be put in an
   * order in which each is a root or a neighbour of an empty square opened before it. Every
   * square opened is therefore joined to a root through empty squares opened by the same
   * reveal; a region cut off from the roots stays closed (`OpenedWithinRegion`).
   */
  ghost predicate OpenedWithin(g: Grid, h: Grid, roots: seq<Coord>)
  {
    exists order :: OpenOrder(g, h, order, roots)
  }

  /** The same bound for a flood still running: everything still queued is reached as well. */
  ghost predicate QueuedWithin(g: Grid, h: Grid, stack: seq<Coord>, roots: seq<Coord>)
  {
    exists order :: OpenOrder(g, h, order, roots) && forall n :: n in stack ==> Fed(g, order, roots, n)
  }

  /** x touches an empty square opened on the way from g to h. */
  ghost predicate NextToOpenedEmpty(g: Grid, h: Grid, x: Coord)
  {
    exists q :: NewlyOpened(g, h, q) && FloodsTo(g, q, x)
  }

  lemma FedMore(g: Grid, before: seq<Coord>, more: seq<Coord>, roots: seq<Coord>, x: Coord)
    requires Fed(g, before, roots, x) && forall q :: q in before ==> q in more
    ensures Fed(g, more, roots, x)
  {
    if x !in roots {
      var q :| q in before && FloodsTo(g, q, x);
      assert q in more;
    }
  }

  lemma ReachesMore(g: Grid, order: seq<Coord>, r1: seq<Coord>, r2: seq<Coord>)
    requires Reaches(g, order, r1) && forall x :: x in r1 ==> x in r2
    ensures Reaches(g, order, r2)
  {
    forall i | 0 <= i < |order| ensures Fed(g, order[..i], r2, order[i]) {
      assert Fed(g, order[..i], r1, order[i]);
    }
  }

  lemma ReachesConcat(g: Grid, o1: seq<Coord>, o2: seq<Coord>, roots: seq<Coord>)
    requires Reaches(g, o1, roots)
    requires forall k :: 0 <= k < |o2| ==> Fed(g, o1 + o2[..k], roots, o2[k])
    ensures Reaches(g, o1 + o2, roots)
  {
    forall i | 0 <= i < |o1 + o2| ensures Fed(g, (o1 + o2)[..i], roots, (o1 + o2)[i]) {
      if i < |o1| {
        assert (o1 + o2)[..i] == o1[..i];
      } else {
        assert (o1 + o2)[..i] == o1 + o2[..i - |o1|];
      }
    }
  }

  /** Opening and unflagging squares keeps every empty square empty and every neighbour a neighbour. */
  lemma FloodsToLayout(g: Grid, h: Grid, q: Coord, x: Coord)
    requires SameLayout(g, h)
    ensures FloodsTo(g, q, x) <==> FloodsTo(h, q, x)
  {
    SameShapeNeighbors(g, h, q.row, q.col);
  }

  /** Nothing opened, nothing to bound. */
  lemma OpenedWithinNone(g: Grid, roots: seq<Coord>)
    ensures OpenedWithin(g, g, roots)
  {
    assert OpenOrder(g, g, [], roots);
  }

  /** A finished flood: an empty work-list leaves the bound on what was opened. */
  lemma QueuedDone(g: Grid, h: Grid, roots: seq<Coord>)
    requires QueuedWithin(g, h, [], roots)
    ensures OpenedWithin(g, h, roots)
  {
    var order :| OpenOrder(g, h, order, roots) && forall n :: n in [] ==> Fed(g, order, roots, n);
  }

  /** The squares opened by one reveal and then by another are exactly those opened by both. */
  lemma NewlyOpenedTrans(a: Grid, b: Grid, c: Grid, x: Coord)
    requires Grows(a, b) && Grows(b, c)
    ensures NewlyOpened(a, c, x) <==> NewlyOpened(a, b, x) || NewlyOpened(b, c, x)
  {
  }

  /**
   * A reveal bounded by r1 followed by one bounded by r2 is bounded by r, when r holds r1 and
   * each root of r2 that is still unopened lies in r or touches an empty square the first
   * reveal opened.
   */
  lemma OpenedWithinThen(a: Grid, b: Grid, c: Grid, r1: seq<Coord>, r2: seq<Coord>, r: seq<Coord>)
    requires Grows(a, b) && Grows(b, c) && OpenedWithin(a, b, r1) && OpenedWithin(b, c, r2)
    requires forall x :: x in r1 ==> x in r
    requires forall x :: x in r2 && Inside(b, x) && !At(b, x).isOpened ==> x in r || NextToOpenedEmpty(a, b, x)
    ensures OpenedWithin(a, c, r)
  {
    var o1 :| OpenOrder(a, b, o1, r1);
    var o2 :| OpenOrder(b, c, o2, r2);
    GrowsSameLayout(a, b);
    ReachesMore(a, o1, r1, r);
    forall k | 0 <= k < |o2| ensures Fed(a, o1 + o2[..k], r, o2[k]) {
      var x := o2[k];
      assert x in o2 && NewlyOpened(b, c, x);
      assert Fed(b, o2[..k], r2, x);
      if x in r2 {
        if x !in r {
          var q :| NewlyOpened(a, b, q) && FloodsTo(a, q, x);
          assert q in o1 + o2[..k];
        }
      } else {
        var q :| q in o2[..k] && FloodsTo(b, q, x);
        FloodsToLayout(a, b, q, x);
        assert q in o1 + o2[..k];
      }
    }
    ReachesConcat(a, o1, o2, r);
    forall x ensures x in o1 + o2 <==> NewlyOpened(a, c, x) {
      NewlyOpenedTrans(a, b, c, x);
    }
    assert OpenOrder(a, c, o1 + o2, r);
  }

  /**
   * A square that changed is a root or touches an empty square opened on the way; so a
   * flagged square that is neither keeps its flag.
   */
  lemma OpenedWithinOutside(g: Grid, h: Grid, roots: seq<Coord>, x: Coord)
    requires Grows(g, h) && OpenedWithin(g, h, roots) && Inside(g, x)
    ensures At(h, x) == At(g, x) || x in roots || NextToOpenedEmpty(g, h, x)
  {
    var order :| OpenOrder(g, h, order, roots);
    if At(h, x) != At(g, x) {
      assert NewlyOpened(g, h, x);
      var i :| 0 <= i < |order| && order[i] == x;
      assert Fed(g, order[..i], roots, x);
      if x !in roots {
        var q :| q in order[..i] && FloodsTo(g, q, x);
        assert q in order;
      }
    }
  }

  /** No entry of `order` before index i lies in s. */
  lemma {:induction false} OrderAvoids(g: Grid, order: seq<Coord>, roots: seq<Coord>, s: set<Coord>, i: nat)
    requires Reaches(g, order, roots) && i <= |order|
    requires forall x :: x in s ==> x !in roots
    requires forall q, x :: FloodsTo(g, q, x) && x in s ==> q in s
    ensures forall j :: 0 <= j < i ==> order[j] !in s
  {
    if i > 0 {
      OrderAvoids(g, order, roots, s, i - 1);
      var x := order[i - 1];
      assert Fed(g, order[..i - 1], roots, x);
      if x !in roots {
        var q :| q in order[..i - 1] && FloodsTo(g, q, x);
        assert q !in s;
      }
    }
  }

  /**
   * A reveal does not jump: when the region s holds no root and no empty square outside s
   * touches it, no square of s is opened.
   */
  lemma OpenedWithinRegion(g: Grid, h: Grid, roots: seq<Coord>, s: set<Coord>)
    requires OpenedWithin(g, h, roots)
    requires forall x :: x in s ==> x !in roots
    requires forall q, x :: FloodsTo(g, q, x) && x in s ==> q in s
    ensures SameShape(g, h) && forall x :: x in s ==> !NewlyOpened(g, h, x)
  {
    var order :| OpenOrder(g, h, order, roots);
    OrderAvoids(g, order, roots, s, |order|);
  }

  /** The one-row board [0, 0, 1, mine, 1, 0, 0] with every square closed. */
  function IslandRow(): (g: Grid)
    ensures |g| == 1 && |g[0]| == 7
  {
    [[Square(0, 0, 0, false, false, false), Square(0, 1, 0, false, false, false),
      Square(0, 2, 1, false, false, false), Square(0, 3, 0, true, false, false),
      Square(0, 4, 1, false, false, false), Square(0, 5, 0, false, false, false),
      Square(0, 6, 0, false, false, false)]]
  }

  /** The squares of `IslandRow` past the mine. */
  function PastTheMine(): set<Coord>
  {
    {Coord(4, 0), Coord(5, 0), Coord(6, 0)}
  }

  /** In `IslandRow` only columns 0, 1, 5 and 6 are empty, and a flood moves one column at a time. */
  lemma IslandFloods(q: Coord, x: Coord)
    requires FloodsTo(IslandRow(), q, x)
    ensures q.row == 0 && q.col in {0, 1, 5, 6} && -1 <= x.col - q.col <= 1
  {
    var g := IslandRow();
    assert GridNeighbors(g, q.row, q.col) == NeighborCoordinates(1, 7, q.row, q.col);
    NeighborCoordinatesExact(1, 7, q.row, q.col, x);
    var c := q.col;
    assert g[0][c].IsEmpty();
    assert c != 2 && c != 3 && c != 4;
  }

  /** So a flood into the squares past the mine comes from one of them. */
  lemma IslandFenced(q: Coord, x: Coord)
    requires q.row == 0 && q.col in {0, 1, 5, 6} && -1 <= x.col - q.col <= 1 && x in PastTheMine()
    ensures q in PastTheMine()
  {
    assert x == Coord(4, 0) || x == Coord(5, 0) || x == Coord(6, 0);
    assert q == Coord(5, 0) || q == Coord(6, 0);
  }

  /**
   * A reveal from the left end of `IslandRow` never reaches the three squares past the mine,
   * although they form an empty region of their own.
   */
  lemma IslandStaysClosed(h: Grid)
    requires OpenedWithin(IslandRow(), h, [Coord(0, 0)])
    ensures forall x :: x in PastTheMine() ==> Inside(h, x) && !At(h, x).isOpened
  {
    var g := IslandRow();
    forall q, x | FloodsTo(g, q, x) && x in PastTheMine() ensures q in PastTheMine() {
      IslandFloods(q, x);
      IslandFenced(q, x);
    }
    OpenedWithinRegion(g, h, [Coord(0, 0)], PastTheMine());
    forall x | x in PastTheMine() ensures Inside(h, x) && !At(h, x).isOpened {
      assert Inside(g, x) && !At(g, x).isOpened;
    }
  }

  /**
   * The one-row board [empty, 1, mine]: the empty square is wrongly flagged and the square
   * showing 1 is opened.
   */
  function WrongFlagRow(): (g: Grid)
    ensures |g| == 1 && |g[0]| == 3
  {
    [[Square(0, 0, 0, false, true, false), Square(0, 1, 1, false, false, true), Square(0, 2, 0, true, false, false)]]
  }

  /** The only square touching the flagged one in `WrongFlagRow` shows 1, so no flood reaches it. */
  lemma WrongFlagUnreached(q: Coord)
    ensures !FloodsTo(WrongFlagRow(), q, Coord(0, 0))
  {
    var g := WrongFlagRow();
    if Inside(g, q) {
      assert GridNeighbors(g, q.row, q.col) == NeighborCoordinates(1, 3, q.row, q.col);
      NeighborCoordinatesExact(1, 3, q.row, q.col, Coord(0, 0));
      if q.col == 1 {
        assert !g[0][1].IsEmpty();
      }
    }
  }

  /**
   * A chord on the opened 1 of `WrongFlagRow` takes its roots from the unflagged neighbours
   * only, so the wrongly flagged square keeps its flag and stays closed.
   */
  lemma WrongFlagKept(h: Grid)
    requires var g := WrongFlagRow();
             Grows(g, h) && OpenedWithin(g, h, Unflagged(g, GridNeighbors(g, 0, 1)))
    ensures At(h, Coord(0, 0)) == At(WrongFlagRow(), Coord(0, 0))
    ensures At(h, Coord(0, 0)).isFlagged && !At(h, Coord(0, 0)).isOpened
  {
    var g := WrongFlagRow();
    var a := Coord(0, 0);
    var roots := Unflagged(g, GridNeighbors(g, 0, 1));
    assert Inside(g, a) && At(g, a).isFlagged;
    assert a !in roots;
    forall q ensures !FloodsTo(g, q, a) {
      WrongFlagUnreached(q);
    }
    OpenedWithinOutside(g, h, roots, a);
  }

  lemma QueuedStart(g: Grid, roots: seq<Coord>)
    ensures QueuedWithin(g, g, roots, roots)
  {
    assert OpenOrder(g, g, [], roots);
  }

  lemma QueuedSkip(g: Grid, h: Grid, rest: seq<Coord>, q: Coord, roots: seq<Coord>)
    requires QueuedWithin(g, h, rest + [q], roots)
    ensures QueuedWithin(g, h, rest, roots)
  {
    var order :| OpenOrder(g, h, order, roots) && forall n :: n in rest + [q] ==> Fed(g, order, roots, n);
    forall n | n in rest ensures Fed(g, order, roots, n) {
      assert n in rest + [q];
    }
  }

  /** Opening a square reached from the roots puts it last in the opening order. */
  lemma OpenOrderExtend(g: Grid, h: Grid, order: seq<Coord>, roots: seq<Coord>, q: Coord)
    requires Grows(g, h) && OpenOrder(g, h, order, roots) && Fed(g, order, roots, q)
    requires Inside(h, q) && !At(h, q).isOpened
    ensures OpenOrder(g, OpenAt(h, q), order + [q], roots)
  {
    var h' := OpenAt(h, q);
    OpenAtGrows(h, q);
    ReachesConcat(g, order, [q], roots);
    forall x ensures x in order + [q] <==> NewlyOpened(g, h', x) {
      NewlyOpenedTrans(g, h, h', x);
    }
  }

  /**
   * Opening the popped square q keeps the bound, since q was reached; so does queueing the
   * neighbours of q when it is empty, since q now comes last in the opening order.
   */
  lemma QueuedOpen(g: Grid, h: Grid, rest: seq<Coord>, q: Coord, roots: seq<Coord>)
    requires Grows(g, h) && QueuedWithin(g, h, rest + [q], roots)
    requires Inside(h, q) && !At(h, q).isOpened
    ensures var pushed := if At(h, q).IsEmpty() then GridNeighbors(h, q.row, q.col) else [];
            QueuedWithin(g, OpenAt(h, q), rest + pushed, roots)
  {
    var order :| OpenOrder(g, h, order, roots) && forall n :: n in rest + [q] ==> Fed(g, order, roots, n);
    var pushed := if At(h, q).IsEmpty() then GridNeighbors(h, q.row, q.col) else [];
    assert q in rest + [q];
    var order' := order + [q];
    OpenOrderExtend(g, h, order, roots, q);
    forall n | n in rest + pushed ensures Fed(g, order', roots, n) {
      if n in rest {
        assert n in rest + [q];
        FedMore(g, order, order', roots, n);
      } else {
        SameShapeNeighbors(g, h, q.row, q.col);
        assert FloodsTo(g, q, n) && q in order';
      }
    }
    assert OpenOrder(g, OpenAt(h, q), order', roots);
  }

  /**
   * After a flood from the empty square p, opening p itself bounds the whole reveal by p:
   * p comes first, and the flood's roots, p's neighbours, are reached from it.
   */
  lemma OpenedWithinTarget(g: Grid, h: Grid, p: Coord)
    requires Grows(g, h) && OpenedWithin(g, h, GridNeighbors(g, p.row, p.col))
    requires Inside(g, p) && !At(g, p).isOpened && At(g, p).IsEmpty()
    ensures OpenedWithin(g, OpenAt(h, p), [p])
  {
    var ns := GridNeighbors(g, p.row, p.col);
    var order :| OpenOrder(g, h, order, ns);
    var h' := OpenAt(h, p);
    OpenAtGrows(h, p);
    var order' := [p] + order;
    ReachedFromTarget(g, order, p);
    forall x ensures x in order' <==> NewlyOpened(g, h', x) {
      NewlyOpenedTrans(g, h, h', x);
    }
    assert OpenOrder(g, h', order', [p]);
  }

  /** An order reached from the neighbours of the empty square p is reached from p once p comes first. */
  lemma ReachedFromTarget(g: Grid, order: seq<Coord>, p: Coord)
    requires Reaches(g, order, GridNeighbors(g, p.row, p.col)) && Inside(g, p) && At(g, p).IsEmpty()
    ensures Reaches(g, [p] + order, [p])
  {
    var ns := GridNeighbors(g, p.row, p.col);
    forall k | 0 <= k < |order| ensures Fed(g, [p] + order[..k], [p], order[k]) {
      assert Fed(g, order[..k], ns, order[k]);
      if order[k] in ns {
        assert FloodsTo(g, p, order[k]);
      } else {
        var q :| q in order[..k] && FloodsTo(g, q, order[k]);
      }
      assert p in [p] + order[..k];
    }
    ReachesConcat(g, [p], order, [p]);
  }

  /** Opening one square is bounded by that square. */
  lemma OpenAtWithin(g: Grid, p: Coord)
    requires Inside(g, p)
    ensures OpenedWithin(g, OpenAt(g, p), [p])
  {
    var order := if At(g, p).isOpened then [] else [p];
    assert OpenOrder(g, OpenAt(g, p), order, [p]);
  }

  /**
   * Where a reveal of p may start from: p itself and, when p is empty, its neighbours (a
   * reveal of an empty square floods its neighbours even when it was opened already).
   */
  ghost function Seed(g: Grid, p: Coord): seq<Coord>
  {
    [p] + if Inside(g, p) && At(g, p).IsEmpty() then GridNeighbors(g, p.row, p.col) else []
  }

  /** The seeds of the positions ns, in order. */
  ghost function Seeds(g: Grid, ns: seq<Coord>): seq<Coord>
  {
    if ns == [] then [] else Seeds(g, ns[..|ns| - 1]) + Seed(g, ns[|ns| - 1])
  }

  /** The listed positions that carry no flag in g, in order: the ones a chord opens. */
  ghost function Unflagged(g: Grid, ns: seq<Coord>): (r: seq<Coord>)
    ensures forall x :: x in r <==> x in ns && !(Inside(g, x) && At(g, x).isFlagged)
  {
    if ns == [] then []
    else
      var last := ns[|ns| - 1];
      assert ns == ns[..|ns| - 1] + [last];
      Unflagged(g, ns[..|ns| - 1]) + if Inside(g, last) && At(g, last).isFlagged then [] else [last]
  }

  /**
   * After a flood from an empty square p, opening p itself, opened before or not, bounds
   * the whole reveal by the seed of p.
   */
  lemma OpenedWithinSeed(g: Grid, h: Grid, p: Coord)
    requires Grows(g, h) && OpenedWithin(g, h, GridNeighbors(g, p.row, p.col))
    requires Inside(g, p) && At(g, p).IsEmpty() && (!At(h, p).isOpened || !At(h, p).isFlagged)
    ensures OpenedWithin(g, OpenAt(h, p), Seed(g, p))
  {
    OpenAtWithin(h, p);
    OpenAtGrows(h, p);
    OpenedWithinThen(g, h, OpenAt(h, p), GridNeighbors(g, p.row, p.col), [p], Seed(g, p));
  }

  /** The unopened positions: the flood-fill's termination measure. */
  ghost function Unopened(g: Grid): set<Coord>
  {
    set r, c | 0 <= r < |g| && 0 <= c < |g[r]| && !g[r][c].isOpened :: Coord(c, r)
  }

  lemma OpenAtShrinks(g: Grid, p: Coord)
    requires Inside(g, p) && !At(g, p).isOpened
    ensures Unopened(OpenAt(g, p)) < Unopened(g)
  {
    var h := OpenAt(g, p);
    assert p in Unopened(g);
    assert p !in Unopened(h);
    forall q | q in Unopened(h) ensures q in Unopened(g) {
      assert Inside(g, q) && At(h, q) == At(g, q);
    }
  }

  // ---------------------------------------------------------------------------
  // Opened squares (`grid.flat().filter(square => square.isOpened)`)
  // ---------------------------------------------------------------------------

  function Flatten(g: Grid): (r: seq<Square>)
  {
    if g == [] then [] else g[0] + Flatten(g[1..])
  }

  function OpenedOf(s: seq<Square>): (r: seq<Square>)
    ensures |r| <= |s|
    ensures forall x :: x in r <==> x in s && x.isOpened
  {
    if s == [] then []
    else (if s[0].isOpened then [s[0]] else []) + OpenedOf(s[1..])
  }

  lemma {:induction false} FlattenHasAll(g: Grid, p: Coord)
    requires Inside(g, p)
    ensures At(g, p) in Flatten(g)
  {
    if p.row > 0 {
      FlattenHasAll(g[1..], Coord(p.col, p.row - 1));
    }
  }

  lemma {:induction false} FlattenOnlyGrid(g: Grid, x: Square)
    requires x in Flatten(g)
    ensures exists p :: Inside(g, p) && At(g, p) == x
  {
    if x in g[0] {
      var c :| 0 <= c < |g[0]| && g[0][c] == x;
      assert At(g, Coord(c, 0)) == x;
    } else {
      FlattenOnlyGrid(g[1..], x);
      var p :| Inside(g[1..], p) && At(g[1..], p) == x;
      assert At(g, Coord(p.col, p.row + 1)) == x;
    }
  }

  /** The flattened grid holds exactly the grid's squares, rows times columns of them. */
  lemma FlattenMembers(g: Grid)
    ensures forall x :: x in Flatten(g) ==> exists p :: Inside(g, p) && At(g, p) == x
    ensures forall p :: Inside(g, p) ==> At(g, p) in Flatten(g)
    ensures (forall r :: 0 <= r < |g| ==> |g[r]| == Cols(g)) ==> |Flatten(g)| == |g| * Cols(g)
  {
    forall x | x in Flatten(g) ensures exists p :: Inside(g, p) && At(g, p) == x {
      FlattenOnlyGrid(g, x);
    }
    forall p | Inside(g, p) ensures At(g, p) in Flatten(g) {
      FlattenHasAll(g, p);
    }
    if forall r :: 0 <= r < |g| ==> |g[r]| == Cols(g) {
      FlattenSize(g, Cols(g));
    }
  }

  lemma {:induction false} FlattenSize(g: Grid, colCount: nat)
    requires forall r :: 0 <= r < |g| ==> |g[r]| == colCount
    ensures |Flatten(g)| == |g| * colCount
  {
    if g != [] {
      FlattenSize(g[1..], colCount);
      assert |g| * colCount == colCount + (|g| - 1) * colCount;
    }
  }

  /** Two grids of the same shape with the same squares are the same grid. */
  lemma GridEq(g: Grid, h: Grid)
    requires SameShape(g, h)
    requires forall p :: Inside(g, p) ==> At(h, p) == At(g, p)
    ensures g == h
  {
    forall r | 0 <= r < |g| ensures g[r] == h[r] {
      forall c | 0 <= c < |g[r]| ensures g[r][c] == h[r][c] {
        assert At(g, Coord(c, r)) == At(h, Coord(c, r));
      }
    }
  }

  /** A mine the player has neither flagged nor opened is among the listed positions. */
  ghost predicate LiveMineAmong(g: Grid, ns: seq<Coord>)
  {
    exists n :: n in ns && Inside(g, n) && At(g, n).isMine && !At(g, n).isFlagged && !At(g, n).isOpened
  }

  // ---------------------------------------------------------------------------
  // The flood-fill work-list invariant, shared by both flood-fills
  // ---------------------------------------------------------------------------

  /**
   * While the work-list is drained: squares only grow open, the list stays on the grid, and
   * every neighbour of the target and of each empty square opened so far is opened, is a
   * skipped mine, or is still on the list.
   */
  ghost predicate WorkListInv(g: Grid, h: Grid, stack: seq<Coord>, target: Coord, skipMines: bool)
  {
    Grows(g, h) &&
    (forall n :: n in stack ==> Inside(g, n)) &&
    Pending(h, stack, target, skipMines) &&
    forall p :: Inside(g, p) && !At(g, p).isOpened && At(h, p).isOpened && At(h, p).IsEmpty() ==>
      Pending(h, stack, p, skipMines)
  }

  lemma WorkListStart(g: Grid, target: Coord, skipMines: bool)
    requires WellFormed(g) && Inside(g, target)
    ensures WorkListInv(g, g, GridNeighbors(g, target.row, target.col), target, skipMines)
  {
  }

  lemma PendingAfterSkip(h: Grid, rest: seq<Coord>, q: Coord, p: Coord, skipMines: bool)
    requires Pending(h, rest + [q], p, skipMines)
    requires Inside(h, q) && (At(h, q).isOpened || (skipMines && At(h, q).isMine))
    ensures Pending(h, rest, p, skipMines)
  {
    forall n | n in GridNeighbors(h, p.row, p.col) && Inside(h, n)
      ensures At(h, n).isOpened || (skipMines && At(h, n).isMine) || n in rest
    {
      if !(At(h, n).isOpened || (skipMines && At(h, n).isMine)) {
        assert n in rest + [q];
        assert n != q;
      }
    }
  }

  lemma PendingAfterOpen(h: Grid, rest: seq<Coord>, q: Coord, pushed: seq<Coord>, p: Coord, skipMines: bool)
    requires Pending(h, rest + [q], p, skipMines) && Inside(h, q)
    ensures Pending(OpenAt(h, q), rest + pushed, p, skipMines)
  {
    var h' := OpenAt(h, q);
    SameShapeNeighbors(h, h', p.row, p.col);
    forall n | n in GridNeighbors(h', p.row, p.col) && Inside(h', n)
      ensures At(h', n).isOpened || (skipMines && At(h', n).isMine) || n in rest + pushed
    {
      if n != q {
        assert At(h', n) == At(h, n);
        if !(At(h, n).isOpened || (skipMines && At(h, n).isMine)) {
          assert n in rest + [q];
          assert n in rest;
          assert n in rest + pushed;
        }
      }
    }
  }

  lemma WorkListSkip(g: Grid, h: Grid, rest: seq<Coord>, q: Coord, target: Coord, skipMines: bool)
    requires WorkListInv(g, h, rest + [q], target, skipMines)
    requires Inside(h, q) && (At(h, q).isOpened || (skipMines && At(h, q).isMine))
    ensures WorkListInv(g, h, rest, target, skipMines)
  {
    PendingAfterSkip(h, rest, q, target, skipMines);
    forall p | Inside(g, p) && !At(g, p).isOpened && At(h, p).isOpened && At(h, p).IsEmpty()
      ensures Pending(h, rest, p, skipMines)
    {
      PendingAfterSkip(h, rest, q, p, skipMines);
    }
  }

  lemma WorkListOpen(g: Grid, h: Grid, rest: seq<Coord>, q: Coord, target: Coord, skipMines: bool)
    requires WellFormed(g) && WorkListInv(g, h, rest + [q], target, skipMines)
    requires Inside(h, q) && !At(h, q).isOpened
    ensures var pushed := if At(h, q).IsEmpty() then GridNeighbors(h, q.row, q.col) else [];
            WorkListInv(g, OpenAt(h, q), rest + pushed, target, skipMines)
  {
    var pushed := if At(h, q).IsEmpty() then GridNeighbors(h, q.row, q.col) else [];
    var h' := OpenAt(h, q);
    OpenAtGrows(h, q);
    GrowsTrans(g, h, h');
    SameShapeNeighbors(g, h, q.row, q.col);
    assert forall n :: n in rest + pushed ==> n in rest + [q] || n in pushed;
    PendingAfterOpen(h, rest, q, pushed, target, skipMines);
    forall p | Inside(g, p) && !At(g, p).isOpened && At(h', p).isOpened && At(h', p).IsEmpty()
      ensures Pending(h', rest + pushed, p, skipMines)
    {
      if p == q {
        SameShapeNeighbors(h, h', q.row, q.col);
        forall n | n in GridNeighbors(h', p.row, p.col) && Inside(h', n)
          ensures At(h', n).isOpened || (skipMines && At(h', n).isMine) || n in rest + pushed
        {
          assert n in pushed;
        }
      } else {
        assert At(h', p) == At(h, p);
        PendingAfterOpen(h, rest, q, pushed, p, skipMines);
      }
    }
  }

  lemma WorkListDone(g: Grid, h: Grid, target: Coord, skipMines: bool)
    requires WorkListInv(g, h, [], target, skipMines)
    ensures Surrounded(h, target, skipMines) && FloodClosed(g, h, skipMines)
  {
  }

  // ---------------------------------------------------------------------------
  // Flags on the grid, the partner of the flag-budget counter
  // ---------------------------------------------------------------------------

  function FlagsIn(s: seq<Square>): (k: nat)
    ensures k <= |s|
  {
    if s == [] then 0 else (if s[0].isFlagged then 1 else 0) + FlagsIn(s[1..])
  }

  /** How many squares of the grid carry a flag. */
  function FlagCount(g: Grid): nat
  {
    if g == [] then 0 else FlagsIn(g[0]) + FlagCount(g[1..])
  }

  /** The flags on the grid, or none before the first reveal. */
  function Flags(grid: Option<Grid>): nat
  {
    if grid.None? then 0 else FlagCount(grid.value)
  }

  lemma {:induction false} FlagsInUpdate(s: seq<Square>, i: nat, x: Square)
    requires i < |s|
    ensures FlagsIn(s[i := x]) == FlagsIn(s) - (if s[i].isFlagged then 1 else 0) + (if x.isFlagged then 1 else 0)
  {
    if i == 0 {
      assert s[i := x][1..] == s[1..];
    } else {
      assert s[i := x][1..] == s[1..][i - 1 := x];
      FlagsInUpdate(s[1..], i - 1, x);
    }
  }

  lemma {:induction false} FlagCountUpdate(g: Grid, r: nat, row: seq<Square>)
    requires r < |g|
    ensures FlagCount(g[r := row]) == FlagCount(g) - FlagsIn(g[r]) + FlagsIn(row)
  {
    if r == 0 {
      assert g[r := row][1..] == g[1..];
    } else {
      assert g[r := row][1..] == g[1..][r - 1 := row];
      FlagCountUpdate(g[1..], r - 1, row);
    }
  }

  /** Replacing one square changes the flag count by that square's flag alone. */
  lemma FlagCountSet(g: Grid, p: Coord, s: Square)
    requires Inside(g, p)
    ensures FlagCount(Set(g, p, s))
         == FlagCount(g) - (if At(g, p).isFlagged then 1 else 0) + (if s.isFlagged then 1 else 0)
  {
    FlagsInUpdate(g[p.row], p.col, s);
    FlagCountUpdate(g, p.row, g[p.row][p.col := s]);
  }

  /** When every square is opened, every square is counted as opened. */
  lemma {:induction false} OpenedOfAllOpened(s: seq<Square>)
    requires forall x :: x in s ==> x.isOpened
    ensures OpenedOf(s) == s
  {
    if s != [] {
      assert s[0] in s;
      assert forall x :: x in s[1..] ==> x in s;
      OpenedOfAllOpened(s[1..]);
    }
  }

  /** `grid.flat().filter(square => square.isOpened)`: the opened squares, one per opened position. */
  function OpenedSquaresOf(g: Grid): (r: seq<Square>)
    ensures forall x :: x in r ==> x.isOpened && exists p :: Inside(g, p) && At(g, p) == x
    ensures forall p :: Inside(g, p) && At(g, p).isOpened ==> At(g, p) in r
    ensures (forall row :: 0 <= row < |g| ==> |g[row]| == Cols(g)) ==> |r| <= |g| * Cols(g)
  {
    FlattenMembers(g);
    OpenedOf(Flatten(g))
  }

  /**
   * On a fully opened board every square is counted as opened, so the win threshold of
   * `checkWin` is met whatever the mine count.
   */
  lemma FullyOpenedCount(g: Grid, rowCount: nat, colCount: nat)
    requires BoardGrid(g, rowCount, colCount)
    requires forall p :: Inside(g, p) ==> At(g, p).isOpened
    ensures |OpenedSquaresOf(g)| == rowCount * colCount
  {
    forall x | x in Flatten(g) ensures x.isOpened {
      FlattenOnlyGrid(g, x);
    }
    OpenedOfAllOpened(Flatten(g));
    FlattenSize(g, colCount);
  }

  /** The positions of the opened squares. */
  ghost function OpenedPositions(g: Grid): set<Coord>
  {
    set r, c | 0 <= r < |g| && 0 <= c < |g[r]| && g[r][c].isOpened :: Coord(c, r)
  }

  /**
   * `checkWin` counts opened squares by the length of the filtered list: that length is the
   * number of opened positions, each counted once.
   */
  lemma OpenedSquaresCount(g: Grid)
    ensures forall p :: p in OpenedPositions(g) <==> Inside(g, p) && At(g, p).isOpened
    ensures |OpenedSquaresOf(g)| == |OpenedPositions(g)|
  {
    GridOpenedCount(g, 0);
    assert GridOpened(g, 0) == OpenedPositions(g) by {
      forall x | x in GridOpened(g, 0) ensures x in OpenedPositions(g) {
        var r, c :| 0 <= r < |g| && 0 <= c < |g[r]| && g[r][c].isOpened && x == Coord(c, r + 0);
      }
    }
  }

  /** The opened positions of the row s, numbered `row`, with columns shifted by `off`. */
  ghost function RowOpened(s: seq<Square>, row: int, off: int): set<Coord>
  {
    set c | 0 <= c < |s| && s[c].isOpened :: Coord(c + off, row)
  }

  /** The opened positions of g with rows shifted by `base`. */
  ghost function GridOpened(g: Grid, base: int): set<Coord>
  {
    set r, c | 0 <= r < |g| && 0 <= c < |g[r]| && g[r][c].isOpened :: Coord(c, r + base)
  }

  lemma {:induction false} OpenedOfAppend(a: seq<Square>, b: seq<Square>)
    ensures OpenedOf(a + b) == OpenedOf(a) + OpenedOf(b)
    decreases |a|
  {
    if a == [] {
      assert a + b == b;
    } else {
      assert (a + b)[1..] == a[1..] + b;
      OpenedOfAppend(a[1..], b);
    }
  }

  lemma {:induction false} RowOpenedCount(s: seq<Square>, row: int, off: int)
    ensures |OpenedOf(s)| == |RowOpened(s, row, off)|
    decreases |s|
  {
    if s == [] {
      assert RowOpened(s, row, off) == {};
    } else {
      RowOpenedCount(s[1..], row, off + 1);
      RowOpenedSplit(s, row, off);
    }
  }

  /** The opened positions of a row are its first square's, if opened, and those of the rest. */
  lemma RowOpenedSplit(s: seq<Square>, row: int, off: int)
    requires s != []
    ensures var head: set<Coord> := if s[0].isOpened then {Coord(off, row)} else {};
            RowOpened(s, row, off) == head + RowOpened(s[1..], row, off + 1) &&
            head !! RowOpened(s[1..], row, off + 1)
  {
    var head: set<Coord> := if s[0].isOpened then {Coord(off, row)} else {};
    forall x | x in RowOpened(s, row, off) ensures x in head + RowOpened(s[1..], row, off + 1) {
      var c :| 0 <= c < |s| && s[c].isOpened && x == Coord(c + off, row);
      if c > 0 {
        assert s[1..][c - 1] == s[c];
        assert x == Coord((c - 1) + (off + 1), row);
      }
    }
    forall x | x in RowOpened(s[1..], row, off + 1) ensures x in RowOpened(s, row, off) && x.col > off {
      var c :| 0 <= c < |s| - 1 && s[1..][c].isOpened && x == Coord(c + (off + 1), row);
      assert s[c + 1] == s[1..][c];
      assert x == Coord((c + 1) + off, row);
    }
  }

  lemma {:induction false} GridOpenedCount(g: Grid, base: int)
    ensures |OpenedOf(Flatten(g))| == |GridOpened(g, base)|
    decreases |g|
  {
    if g == [] {
      assert GridOpened(g, base) == {};
    } else {
      OpenedOfAppend(g[0], Flatten(g[1..]));
      RowOpenedCount(g[0], base, 0);
      GridOpenedCount(g[1..], base + 1);
      GridOpenedSplit(g, base);
    }
  }

  /** The opened positions of g are those of its first row and, disjointly, of the rest. */
  lemma GridOpenedSplit(g: Grid, base: int)
    requires g != []
    ensures GridOpened(g, base) == RowOpened(g[0], base, 0) + GridOpened(g[1..], base + 1)
    ensures RowOpened(g[0], base, 0) !! GridOpened(g[1..], base + 1)
  {
    var top := RowOpened(g[0], base, 0);
    var rest := GridOpened(g[1..], base + 1);
    forall x | x in GridOpened(g, base) ensures x in top + rest {
      var r, c :| 0 <= r < |g| && 0 <= c < |g[r]| && g[r][c].isOpened && x == Coord(c, r + base);
      if r == 0 {
        assert x == Coord(c + 0, base);
      } else {
        assert g[1..][r - 1] == g[r];
        assert x == Coord(c, (r - 1) + (base + 1));
      }
    }
    forall x | x in top ensures x in GridOpened(g, base) {
      var c :| 0 <= c < |g[0]| && g[0][c].isOpened && x == Coord(c + 0, base);
      assert x == Coord(c, 0 + base);
    }
    forall x | x in rest ensures x in GridOpened(g, base) && x.row > base {
      var r, c :| 0 <= r < |g| - 1 && 0 <= c < |g[1..][r]| && g[1..][r][c].isOpened &&
                  x == Coord(c, r + (base + 1));
      assert g[r + 1] == g[1..][r];
      assert x == Coord(c, (r + 1) + base);
    }
  }
}
