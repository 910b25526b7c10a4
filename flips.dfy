/** Applying a move: placing the piece and flipping every captured run
    (handleMove and flipPieces in src/components/Game.tsx), stated on
    board values. */
module Flips {
  import opened Types
  import opened Rays

  /** handleMove puts the mover's piece on the chosen square of the copy. */
  function Place(b: Board, pos: Position, p: Side): (b': Board)
    requires WellFormed(b) && OnBoard(pos)
    ensures WellFormed(b')
    ensures forall x, y :: 0 <= x < 8 && 0 <= y < 8 ==>
      b'[x][y] == if Position(x, y) == pos then p else b[x][y]
  {
    b[pos.row := b[pos.row][pos.col := p]]
  }

  /** b with the first n squares of the ray from pos along d set to p. */
  function SetRun(b: Board, pos: Position, d: Delta, p: Side, n: int): (b': Board)
    requires WellFormed(b)
    ensures WellFormed(b')
  {
    seq(8, x requires 0 <= x < 8 =>
      seq(8, y requires 0 <= y < 8 =>
        if 1 <= RayIndex(pos, d, x, y) <= n then p else b[x][y]))
  }

  /** A run of length zero changes nothing. */
  lemma SetRunEmpty(b: Board, pos: Position, d: Delta, p: Side)
    requires WellFormed(b)
    ensures SetRun(b, pos, d, p, 0) == b
  {
    SameBoard(SetRun(b, pos, d, p, 0), b);
  }

  /** Extending a run by one square sets exactly the square k steps away. */
  lemma SetRunNext(b: Board, pos: Position, d: Delta, p: Side, k: int)
    requires WellFormed(b) && IsUnit(d) && k >= 1 && OnBoard(Along(pos, d, k))
    ensures SetRun(b, pos, d, p, k) == Place(SetRun(b, pos, d, p, k - 1), Along(pos, d, k), p)
  {
    AlongIndex(pos, d, k);
    SameBoard(SetRun(b, pos, d, p, k), Place(SetRun(b, pos, d, p, k - 1), Along(pos, d, k), p));
  }

  /** The square a run of length k - 1 stops short of still holds what the
      ray read there. */
  lemma SetRunAhead(b: Board, pos: Position, d: Delta, p: Side, k: int)
    requires WellFormed(b) && IsUnit(d) && 1 <= k <= |RayOf(b, pos, d)|
    ensures OnBoard(Along(pos, d, k))
    ensures SetRun(b, pos, d, p, k - 1)[Along(pos, d, k).row][Along(pos, d, k).col] == RayOf(b, pos, d)[k - 1]
  {
    RayFromAt(b, pos, d, 1, k - 1);
    AlongIndex(pos, d, k);
  }

  /** One iteration of flipPieces' forEach: when d captures on b, the
      opponent run next to pos becomes p. */
  function FlipRay(b: Board, pos: Position, d: Delta, p: Side): (b': Board)
    requires WellFormed(b) && IsUnit(d)
    ensures WellFormed(b')
  {
    if Captures(b, pos, d, p) then SetRun(b, pos, d, p, RunLength(RayOf(b, pos, d), p)) else b
  }

  /** flipPieces after its first n directions. As in the source, each
      direction is tested on the board the earlier ones already changed. */
  function FlipSequence(b: Board, pos: Position, p: Side, n: int): (b': Board)
    requires WellFormed(b) && 0 <= n <= 8
    ensures WellFormed(b')
  {
    if n == 0 then b
    else
      DirectionsAreTheUnitSteps();
      FlipRay(FlipSequence(b, pos, p, n - 1), pos, Directions[n - 1], p)
  }

  /** The board handleMove commits: the copy, the placed piece, then flipPieces. */
  function ApplyMove(b: Board, pos: Position, p: Side): (b': Board)
    requires WellFormed(b) && OnBoard(pos)
    ensures WellFormed(b')
  {
    FlipSequence(Place(b, pos, p), pos, p, 8)
  }

  /** Square (x, y) lies strictly between pos and the closing piece of p on
      the capturing ray along direction i, as determined on board b. */
  predicate CapturedBy(b: Board, pos: Position, p: Side, i: int, x: int, y: int)
    requires WellFormed(b) && 0 <= i < 8
  {
    DirectionsAreTheUnitSteps();
    var d := Directions[i];
    Captures(b, pos, d, p) && 1 <= RayIndex(pos, d, x, y) <= RunLength(RayOf(b, pos, d), p)
  }

  /** Captured by one of the first n directions. */
  predicate CapturedWithin(b: Board, pos: Position, p: Side, n: int, x: int, y: int)
    requires WellFormed(b) && 0 <= n <= 8
  {
    exists i :: 0 <= i < n && CapturedBy(b, pos, p, i, x, y)
  }

  /** Captured by some direction, all rays read on the board before the move. */
  predicate Captured(b: Board, pos: Position, p: Side, x: int, y: int)
    requires WellFormed(b)
  {
    CapturedWithin(b, pos, p, 8, x, y)
  }

  /** Squares on the ray along direction n - 1 are untouched by the earlier
      directions' flips and by the placed piece, so that ray reads the same. */
  lemma RayUnflipped(b: Board, before: Board, pos: Position, p: Side, n: int)
    requires WellFormed(b) && WellFormed(before) && OnBoard(pos) && 1 <= n <= 8
    requires forall x, y :: 0 <= x < 8 && 0 <= y < 8 ==>
      before[x][y] == if CapturedWithin(b, pos, p, n - 1, x, y) then p else Place(b, pos, p)[x][y]
    ensures IsUnit(Directions[n - 1])
    ensures RayOf(before, pos, Directions[n - 1]) == RayOf(b, pos, Directions[n - 1])
  {
    DirectionsAreTheUnitSteps();
    var d := Directions[n - 1];
    forall x, y | IsValidPosition(x, y) && RayIndex(pos, d, x, y) >= 1
      ensures before[x][y] == b[x][y]
    {
      if CapturedWithin(b, pos, p, n - 1, x, y) {
        var i :| 0 <= i < n - 1 && CapturedBy(b, pos, p, i, x, y);
        AlongInjective(pos, Directions[i], d, RayIndex(pos, Directions[i], x, y), RayIndex(pos, d, x, y));
      }
    }
    RayFromAgree(before, b, pos, d, 1);
  }

  /** One more direction of flipPieces extends the flipped set by that
      direction's run on the original board. */
  lemma FlipRayStep(b: Board, before: Board, pos: Position, p: Side, n: int)
    requires WellFormed(b) && WellFormed(before) && OnBoard(pos) && 1 <= n <= 8
    requires forall x, y :: 0 <= x < 8 && 0 <= y < 8 ==>
      before[x][y] == if CapturedWithin(b, pos, p, n - 1, x, y) then p else Place(b, pos, p)[x][y]
    ensures IsUnit(Directions[n - 1])
    ensures forall x, y :: 0 <= x < 8 && 0 <= y < 8 ==>
      FlipRay(before, pos, Directions[n - 1], p)[x][y] ==
        if CapturedWithin(b, pos, p, n, x, y) then p else Place(b, pos, p)[x][y]
  {
    RayUnflipped(b, before, pos, p, n);
    var d := Directions[n - 1];
    var after := FlipRay(before, pos, d, p);
    forall x, y | 0 <= x < 8 && 0 <= y < 8
      ensures after[x][y] == if CapturedWithin(b, pos, p, n, x, y) then p else Place(b, pos, p)[x][y]
    {
      assert after[x][y] == if CapturedBy(b, pos, p, n - 1, x, y) then p else before[x][y];
      if CapturedBy(b, pos, p, n - 1, x, y) {
        assert CapturedWithin(b, pos, p, n, x, y);
      } else if CapturedWithin(b, pos, p, n - 1, x, y) {
        var i :| 0 <= i < n - 1 && CapturedBy(b, pos, p, i, x, y);
        assert CapturedWithin(b, pos, p, n, x, y);
      } else {
        assert !CapturedWithin(b, pos, p, n, x, y);
      }
    }
  }

  /** Flipping direction by direction, each tested on the partly flipped
      board, gives the flips of all rays read on the original board. */
  lemma {:induction false} FlipSequenceCells(b: Board, pos: Position, p: Side, n: int)
    requires WellFormed(b) && OnBoard(pos) && 0 <= n <= 8
    ensures forall x, y :: 0 <= x < 8 && 0 <= y < 8 ==>
      FlipSequence(Place(b, pos, p), pos, p, n)[x][y] ==
        if CapturedWithin(b, pos, p, n, x, y) then p else Place(b, pos, p)[x][y]
  {
    if n > 0 {
      FlipSequenceCells(b, pos, p, n - 1);
      FlipRayStep(b, FlipSequence(Place(b, pos, p), pos, p, n - 1), pos, p, n);
    }
  }

  /** handleMove on a board: the placed square and every captured square
      hold p; every other square is unchanged. */
  lemma ApplyMoveCells(b: Board, pos: Position, p: Side)
    requires WellFormed(b) && OnBoard(pos)
    ensures forall x, y :: 0 <= x < 8 && 0 <= y < 8 ==>
      ApplyMove(b, pos, p)[x][y] ==
        if Position(x, y) == pos || Captured(b, pos, p, x, y) then p else b[x][y]
  {
    FlipSequenceCells(b, pos, p, 8);
  }

  /** Flips only ever overwrite opponent pieces, and never the placed square. */
  lemma CapturedIsOpponent(b: Board, pos: Position, p: Side, x: int, y: int)
    requires WellFormed(b) && IsValidPosition(x, y)
    requires Captured(b, pos, p, x, y)
    ensures b[x][y] == Opponent(p) && Position(x, y) != pos
  {
    DirectionsAreTheUnitSteps();
    var i :| 0 <= i < 8 && CapturedBy(b, pos, p, i, x, y);
    var d := Directions[i];
    var k := RayIndex(pos, d, x, y);
    RayFromAt(b, pos, d, 1, k - 1);
  }

  /** A legal move flips at least the piece next to it on a capturing ray. */
  lemma CaptureFlipsNeighbour(b: Board, pos: Position, p: Side, i: int)
    requires WellFormed(b) && 0 <= i < 8
    requires Captures(b, pos, Directions[i], p)
    ensures IsValidPosition(Along(pos, Directions[i], 1).row, Along(pos, Directions[i], 1).col)
    ensures Captured(b, pos, p, Along(pos, Directions[i], 1).row, Along(pos, Directions[i], 1).col)
  {
    DirectionsAreTheUnitSteps();
    var d := Directions[i];
    RayFromAt(b, pos, d, 1, 0);
    AlongIndex(pos, d, 1);
    assert CapturedBy(b, pos, p, i, Along(pos, d, 1).row, Along(pos, d, 1).col);
  }
}
