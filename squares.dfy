/**
 * The cell record shared by both board implementations (src/models/square.ts).
 */
module Squares {

  /** One grid position: its coordinates, its mine count and its player-visible state. */
  datatype Square = Square(
    row: int,
    col: int,
    neighborMineCount: int,
    isMine: bool,
    isFlagged: bool,
    isOpened: bool)
  {
    /** A square is empty when it is not a mine and none of its neighbours is one. */
    predicate IsEmpty()
    {
      neighborMineCount == 0 && !isMine
    }
  }

  /** The factory `Square(row, col, isMine)`: no neighbour count yet, not flagged, not opened. */
  function NewSquare(row: int, col: int, isMine: bool): (s: Square)
    ensures s.row == row && s.col == col && s.isMine == isMine
    ensures s.neighborMineCount == 0 && !s.isFlagged && !s.isOpened
    ensures s.IsEmpty() <==> !isMine
  {
    Square(row, col, 0, isMine, false, false)
  }

  /** The state every reveal leaves a square in: opened, with its flag cleared. */
  function Opened(s: Square): (t: Square)
    ensures t.isOpened && !t.isFlagged
    ensures t.row == s.row && t.col == s.col
    ensures t.isMine == s.isMine && t.neighborMineCount == s.neighborMineCount
    ensures t.IsEmpty() == s.IsEmpty()
  {
    s.(isFlagged := false, isOpened := true)
  }

  /** A mine square is never empty, whatever its neighbour count says. */
  lemma MineNeverEmpty(s: Square)
    ensures s.isMine ==> !s.IsEmpty()
  {
  }
}
