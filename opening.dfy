/** The starting position (the initializer of the board state in
    src/components/Game.tsx) and black's opening moves on it. */
module Opening {
  import opened Types
  import opened Rays
  import opened Rules
  import opened Flips

  /** White on (3,3) and (4,4), black on (3,4) and (4,3), all else empty. */
  function InitialCell(x: int, y: int): Cell {
    if (x == 3 && y == 3) || (x == 4 && y == 4) then White
    else if (x == 3 && y == 4) || (x == 4 && y == 3) then Black
    else Empty
  }

  function InitialBoard(): (b: Board)
    ensures WellFormed(b)
    ensures forall x, y :: 0 <= x < 8 && 0 <= y < 8 ==> b[x][y] == InitialCell(x, y)
  {
    seq(8, x requires 0 <= x < 8 => seq(8, y requires 0 <= y < 8 => InitialCell(x, y)))
  }

  /** Black's four opening moves, in row-major order. */
  const OpeningMoves: seq<Position> :=
    [Position(2, 3), Position(3, 2), Position(4, 5), Position(5, 4)]

  /** A square with no white neighbour is not legal for black. */
  lemma QuietSquare(pos: Position)
    requires OnBoard(pos)
    requires forall i :: 0 <= i < 8 ==>
      var q := Along(pos, Directions[i], 1); !OnBoard(q) || InitialCell(q.row, q.col) != White
    ensures !CanCapture(InitialBoard(), pos, Black)
  {
    DirectionsAreTheUnitSteps();
    forall i | 0 <= i < 8
      ensures !Captures(InitialBoard(), pos, Directions[i], Black)
    {
      NoCaptureUnlessOpponentAdjacent(InitialBoard(), pos, Directions[i], Black);
    }
  }

  /** A square whose only white neighbour lies along direction w, where m
      white pieces are followed by an empty square, is not legal for black. */
  lemma BlockedSquare(pos: Position, w: int, m: int)
    requires OnBoard(pos) && 0 <= w < 8 && 1 <= m <= 2
    requires forall i :: 0 <= i < 8 && i != w ==>
      var q := Along(pos, Directions[i], 1); !OnBoard(q) || InitialCell(q.row, q.col) != White
    requires forall j :: 1 <= j <= m ==>
      var q := Along(pos, Directions[w], j); OnBoard(q) && InitialCell(q.row, q.col) == White
    requires var q := Along(pos, Directions[w], m + 1); OnBoard(q) && InitialCell(q.row, q.col) == Empty
    ensures !CanCapture(InitialBoard(), pos, Black)
  {
    DirectionsAreTheUnitSteps();
    forall i | 0 <= i < 8
      ensures !Captures(InitialBoard(), pos, Directions[i], Black)
    {
      if i == w {
        CapturesAfterRun(InitialBoard(), pos, Directions[w], Black, m);
      } else {
        NoCaptureUnlessOpponentAdjacent(InitialBoard(), pos, Directions[i], Black);
      }
    }
  }

  /** An opening move: the white neighbour along w is followed by a black piece. */
  lemma OpeningMoveLegal(pos: Position, w: int)
    requires OnBoard(pos) && InitialCell(pos.row, pos.col) == Empty && 0 <= w < 8
    requires var q := Along(pos, Directions[w], 1); OnBoard(q) && InitialCell(q.row, q.col) == White
    requires var q := Along(pos, Directions[w], 2); OnBoard(q) && InitialCell(q.row, q.col) == Black
    ensures IsLegal(InitialBoard(), pos, Black)
  {
    DirectionsAreTheUnitSteps();
    CapturesAfterRun(InitialBoard(), pos, Directions[w], Black, 1);
  }

  /** The four opening moves capture one white piece each. */
  lemma OpeningMovesLegal()
    ensures forall k :: 0 <= k < 4 ==> IsLegal(InitialBoard(), OpeningMoves[k], Black)
  {
    OpeningMoveLegal(Position(2, 3), 6);
    OpeningMoveLegal(Position(3, 2), 4);
    OpeningMoveLegal(Position(4, 5), 3);
    OpeningMoveLegal(Position(5, 4), 1);
  }

  /** A square of the starting position is legal for black exactly when it
      is one of the four opening moves. */
  lemma InitialSquare(r: int, c: int)
    requires IsValidPosition(r, c)
    ensures IsLegal(InitialBoard(), Position(r, c), Black) <==> Position(r, c) in OpeningMoves
  {
    var pos := Position(r, c);
    OpeningMovesLegal();
    if InitialCell(r, c) != Empty || pos in OpeningMoves {
    } else if pos == Position(2, 2) {
      BlockedSquare(pos, 7, 2);
    } else if pos == Position(2, 4) {
      BlockedSquare(pos, 5, 1);
    } else if pos == Position(4, 2) {
      BlockedSquare(pos, 2, 1);
    } else if pos == Position(3, 5) {
      BlockedSquare(pos, 5, 1);
    } else if pos == Position(5, 3) {
      BlockedSquare(pos, 2, 1);
    } else if pos == Position(5, 5) {
      BlockedSquare(pos, 0, 2);
    } else {
      QuietSquare(pos);
    }
  }

  /** On the starting position black's legal moves are exactly (2,3), (3,2),
      (4,5) and (5,4), in that order. */
  lemma InitialLegalMoves()
    ensures LegalMoves(InitialBoard(), Black) == OpeningMoves
  {
    var b := InitialBoard();
    LegalMovesExactly(b, Black);
    forall pos
      ensures pos in LegalMoves(b, Black) <==> pos in OpeningMoves
    {
      if OnBoard(pos) {
        InitialSquare(pos.row, pos.col);
      }
    }
    IncreasingUnique(LegalMoves(b, Black), OpeningMoves);
  }

  /** At (2,3) on the starting position only the downward direction
      captures, over a run of one white piece. */
  lemma FirstMoveDirections()
    ensures forall i :: 0 <= i < 8 ==> (Captures(InitialBoard(), Position(2, 3), Directions[i], Black) <==> i == 6)
    ensures RunLength(RayOf(InitialBoard(), Position(2, 3), Directions[6]), Black) == 1
  {
    var b0, pos := InitialBoard(), Position(2, 3);
    DirectionsAreTheUnitSteps();
    CapturesAfterRun(b0, pos, Directions[6], Black, 1);
    forall i | 0 <= i < 8 && i != 6
      ensures !Captures(b0, pos, Directions[i], Black)
    {
      NoCaptureUnlessOpponentAdjacent(b0, pos, Directions[i], Black);
    }
  }

  /** The only square black's move at (2,3) captures is (3,3). */
  lemma FirstMoveCaptured(x: int, y: int)
    requires IsValidPosition(x, y)
    ensures Captured(InitialBoard(), Position(2, 3), Black, x, y) <==> Position(x, y) == Position(3, 3)
  {
    var b0, pos := InitialBoard(), Position(2, 3);
    DirectionsAreTheUnitSteps();
    FirstMoveDirections();
    AlongIndex(pos, Directions[6], 1);
    if Position(x, y) == Position(3, 3) {
      assert CapturedBy(b0, pos, Black, 6, x, y);
    }
  }

  /** Black's first move at (2,3) flips exactly the white piece at (3,3):
      black then holds (2,3), (3,3), (3,4) and (4,3), white only (4,4). */
  lemma FirstMoveFlipsOne()
    ensures var b := ApplyMove(InitialBoard(), Position(2, 3), Black);
      forall x, y :: 0 <= x < 8 && 0 <= y < 8 ==>
        b[x][y] == if Position(x, y) in {Position(2, 3), Position(3, 3)} then Black else InitialCell(x, y)
  {
    ApplyMoveCells(InitialBoard(), Position(2, 3), Black);
    forall x, y | 0 <= x < 8 && 0 <= y < 8
      ensures Captured(InitialBoard(), Position(2, 3), Black, x, y) <==> Position(x, y) == Position(3, 3)
    {
      FirstMoveCaptured(x, y);
    }
  }
}
