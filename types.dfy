/** Cells, players, positions and the 8x8 board (src/types.ts), plus the
    board geometry shared by the rules: the bounds check and the eight
    scanning directions of src/components/Game.tsx. */
module Types {

  /** One square: a black piece, a white piece, or nothing. */
  datatype Cell = Empty | Black | White

  /** The side to move is always a colour, never an empty square. */
  type Side = c: Cell | c != Empty witness Black

  /** The other colour. */
  function Opponent(p: Side): (q: Side)
    ensures q != p
  {
    if p == Black then White else Black
  }

  /** A square, by row and column. */
  datatype Position = Position(row: int, col: int)

  /** A scanning direction: dx moves along rows, dy along columns. */
  datatype Delta = Delta(dx: int, dy: int)

  /** One of the eight king steps; the only directions the rules scan. */
  predicate IsUnit(d: Delta) {
    -1 <= d.dx <= 1 && -1 <= d.dy <= 1 && d != Delta(0, 0)
  }

  /** The direction table of canPlace and flipPieces, in the same order. */
  const Directions: seq<Delta> :=
    [Delta(-1, -1), Delta(-1, 0), Delta(-1, 1), Delta(0, -1),
     Delta(0, 1), Delta(1, -1), Delta(1, 0), Delta(1, 1)]

  /** The table lists every king step exactly once. */
  lemma DirectionsAreTheUnitSteps()
    ensures |Directions| == 8
    ensures forall i :: 0 <= i < 8 ==> IsUnit(Directions[i])
    ensures forall d :: d in Directions <==> IsUnit(d)
    ensures forall i, j :: 0 <= i < j < 8 ==> Directions[i] != Directions[j]
  {
  }

  /** The board: rows of squares, row-major, origin at the top left. */
  type Board = seq<seq<Cell>>

  predicate WellFormed(b: Board) {
    |b| == 8 && forall r :: 0 <= r < 8 ==> |b[r]| == 8
  }

  /** Boards are equal when they agree on every square. */
  lemma SameBoard(a: Board, b: Board)
    requires WellFormed(a) && WellFormed(b)
    requires forall x, y :: 0 <= x < 8 && 0 <= y < 8 ==> a[x][y] == b[x][y]
    ensures a == b
  {
    forall x | 0 <= x < 8
      ensures a[x] == b[x]
    {
      assert forall y :: 0 <= y < 8 ==> a[x][y] == b[x][y];
    }
  }

  /** isValidPosition */
  predicate IsValidPosition(row: int, col: int) {
    row >= 0 && row < 8 && col >= 0 && col < 8
  }

  predicate OnBoard(pos: Position) {
    IsValidPosition(pos.row, pos.col)
  }

  /** The bounds check admits exactly the squares a board has. */
  lemma ValidPositionIndexesBoard(b: Board, row: int, col: int)
    requires WellFormed(b)
    ensures IsValidPosition(row, col) <==> 0 <= row < |b| && 0 <= col < |b[row]|
  {
  }

  function At(b: Board, pos: Position): Cell
    requires WellFormed(b) && OnBoard(pos)
  {
    b[pos.row][pos.col]
  }

  /** Row-major rank of a square: the order in which updateValidMoves visits it. */
  function Index(pos: Position): int {
    8 * pos.row + pos.col
  }

  /** Distinct squares have distinct ranks; every square's rank is below 64. */
  lemma IndexInjective(a: Position, b: Position)
    requires OnBoard(a) && OnBoard(b)
    ensures 0 <= Index(a) < 64
    ensures Index(a) == Index(b) ==> a == b
  {
  }
}
