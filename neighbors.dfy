/**
 * The neighbour rule shared by placement, reveal and chord: the eight surrounding
 * positions, kept only when they lie on a rowCount x colCount grid.
 */
module Neighbors {

  /** A position in the source's `[col, row]` order. */
  datatype Coord = Coord(col: int, row: int)

  /** The eight offsets, each written (row offset, column offset). */
  const CoordinatePositionDiff: seq<(int, int)> :=
    [(-1, -1), (0, -1), (1, -1), (-1, 0), (1, 0), (-1, 1), (0, 1), (1, 1)]

  predicate InBounds(rowCount: int, colCount: int, c: Coord)
  {
    c.col >= 0 && c.row >= 0 && c.col < colCount && c.row < rowCount
  }

  /** `c` is one of the eight squares touching (row, col). */
  predicate Adjacent(row: int, col: int, c: Coord)
  {
    c != Coord(col, row) && -1 <= c.row - row <= 1 && -1 <= c.col - col <= 1
  }

  /** The `map` step: every offset applied to (row, col). */
  function Shifted(row: int, col: int, diffs: seq<(int, int)>): (r: seq<Coord>)
    ensures |r| == |diffs|
    ensures forall i :: 0 <= i < |diffs| ==> r[i] == Coord(col + diffs[i].1, row + diffs[i].0)
  {
    if diffs == [] then []
    else [Coord(col + diffs[0].1, row + diffs[0].0)] + Shifted(row, col, diffs[1..])
  }

  /** The `filter` step: keeps the coordinates that lie on the grid, in order. */
  function KeepInBounds(rowCount: int, colCount: int, cs: seq<Coord>): (r: seq<Coord>)
    ensures |r| <= |cs|
    ensures forall c :: c in r <==> c in cs && InBounds(rowCount, colCount, c)
  {
    if cs == [] then []
    else (if InBounds(rowCount, colCount, cs[0]) then [cs[0]] else [])
         + KeepInBounds(rowCount, colCount, cs[1..])
  }

  /** `getNeighborCoordinates(rowCount, colCount, row, col)`. */
  function NeighborCoordinates(rowCount: int, colCount: int, row: int, col: int): (r: seq<Coord>)
    ensures |r| <= 8
    ensures forall c :: c in r ==> InBounds(rowCount, colCount, c) && c != Coord(col, row)
  {
    KeepInBounds(rowCount, colCount, Shifted(row, col, CoordinatePositionDiff))
  }

  /** The neighbours are exactly the on-grid squares touching (row, col). */
  lemma NeighborCoordinatesExact(rowCount: int, colCount: int, row: int, col: int, c: Coord)
    ensures c in NeighborCoordinates(rowCount, colCount, row, col)
        <==> InBounds(rowCount, colCount, c) && Adjacent(row, col, c)
  {
    var s := Shifted(row, col, CoordinatePositionDiff);
    assert s == [Coord(col - 1, row - 1), Coord(col - 1, row), Coord(col - 1, row + 1),
                 Coord(col, row - 1), Coord(col, row + 1),
                 Coord(col + 1, row - 1), Coord(col + 1, row), Coord(col + 1, row + 1)];
    if InBounds(rowCount, colCount, c) && Adjacent(row, col, c) {
      var dr, dc := c.row - row, c.col - col;
      assert c == Coord(col + dc, row + dr);
      var i := if dc == -1 then dr + 1 else if dc == 0 then (if dr < 0 then 3 else 4) else dr + 6;
      assert c == s[i];
    }
  }

  /** Being a neighbour is symmetric. */
  lemma NeighborSymmetric(rowCount: int, colCount: int, row: int, col: int, c: Coord)
    requires InBounds(rowCount, colCount, Coord(col, row))
    requires c in NeighborCoordinates(rowCount, colCount, row, col)
    ensures Coord(col, row) in NeighborCoordinates(rowCount, colCount, c.row, c.col)
  {
    NeighborCoordinatesExact(rowCount, colCount, row, col, c);
    NeighborCoordinatesExact(rowCount, colCount, c.row, c.col, Coord(col, row));
  }

  /** No element occurs twice. */
  predicate Distinct<T(==)>(s: seq<T>)
  {
    forall i, j :: 0 <= i < j < |s| ==> s[i] != s[j]
  }

  /** No position is listed twice. */
  lemma NeighborCoordinatesDistinct(rowCount: int, colCount: int, row: int, col: int)
    ensures Distinct(NeighborCoordinates(rowCount, colCount, row, col))
  {
    var s := Shifted(row, col, CoordinatePositionDiff);
    assert s == [Coord(col - 1, row - 1), Coord(col - 1, row), Coord(col - 1, row + 1),
                 Coord(col, row - 1), Coord(col, row + 1),
                 Coord(col + 1, row - 1), Coord(col + 1, row), Coord(col + 1, row + 1)];
    forall i, j | 0 <= i < j < |s| ensures s[i] != s[j] {
      assert s[i].col - col != s[j].col - col || s[i].row - row != s[j].row - row;
    }
    KeepDistinct(rowCount, colCount, s);
  }

  lemma {:induction false} KeepDistinct(rowCount: int, colCount: int, cs: seq<Coord>)
    requires Distinct(cs)
    ensures Distinct(KeepInBounds(rowCount, colCount, cs))
  {
    if cs != [] {
      assert Distinct(cs[1..]);
      KeepDistinct(rowCount, colCount, cs[1..]);
      var tail := KeepInBounds(rowCount, colCount, cs[1..]);
      assert cs[0] !in cs[1..];
      assert cs[0] !in tail;
      var r := KeepInBounds(rowCount, colCount, cs);
      if InBounds(rowCount, colCount, cs[0]) {
        assert r == [cs[0]] + tail;
        forall i, j | 0 <= i < j < |r| ensures r[i] != r[j] {
          assert r[j] == tail[j - 1];
          if i == 0 {
            assert r[i] == cs[0] && r[j] in tail;
          } else {
            assert r[i] == tail[i - 1];
          }
        }
      } else {
        assert r == tail;
      }
    }
  }
}
