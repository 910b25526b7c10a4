/** Piece counts (calculateScores), the winner rule of the game-over banner,
    and how a move changes the counts (src/components/Game.tsx). */
module Scores {
  import opened Types
  import opened Rays
  import opened Rules
  import opened Flips

  /** Number of squares holding c that calculateScores' scan has passed on
      reaching square (row, col). */
  function CountPrefix(b: Board, c: Cell, row: int, col: int): (k: nat)
    requires WellFormed(b) && 0 <= row <= 8 && 0 <= col <= 8
    ensures k <= 8 * row + col
    decreases row, col
  {
    if col == 0 then
      if row == 0 then 0 else CountPrefix(b, c, row - 1, 8)
    else
      CountPrefix(b, c, row, col - 1) + (if row < 8 && b[row][col - 1] == c then 1 else 0)
  }

  /** Number of squares holding c on the whole board. */
  function Count(b: Board, c: Cell): nat
    requires WellFormed(b)
  {
    CountPrefix(b, c, |b|, 0)
  }

  lemma {:induction false} CountPrefixPartition(b: Board, row: int, col: int)
    requires WellFormed(b) && 0 <= row <= 8 && 0 <= col <= 8 && (row < 8 || col == 0)
    ensures CountPrefix(b, Black, row, col) + CountPrefix(b, White, row, col) + CountPrefix(b, Empty, row, col)
         == 8 * row + col
    decreases row, col
  {
    if col > 0 {
      CountPrefixPartition(b, row, col - 1);
    } else if row > 0 {
      CountPrefixPartition(b, row - 1, 8);
    }
  }

  /** Black, white and empty squares add up to 64, so the two scores never exceed 64. */
  lemma ScoresPartitionBoard(b: Board)
    requires WellFormed(b)
    ensures Count(b, Black) + Count(b, White) + Count(b, Empty) == 64
    ensures Count(b, Black) + Count(b, White) <= 64
  {
    CountPrefixPartition(b, |b|, 0);
  }

  /** Changing whether one square holds c, and no other, moves the count by one. */
  lemma {:induction false} CountPrefixOneLess(b: Board, b': Board, c: Cell, pos: Position, row: int, col: int)
    requires WellFormed(b) && WellFormed(b') && OnBoard(pos) && 0 <= row <= 8 && 0 <= col <= 8
    requires forall x, y :: 0 <= x < 8 && 0 <= y < 8 && Position(x, y) != pos ==>
      (b'[x][y] == c <==> b[x][y] == c)
    requires At(b, pos) == c && At(b', pos) != c
    ensures CountPrefix(b', c, row, col) ==
      CountPrefix(b, c, row, col) - (if Index(pos) < 8 * row + col then 1 else 0)
    decreases row, col
  {
    if col > 0 {
      CountPrefixOneLess(b, b', c, pos, row, col - 1);
    } else if row > 0 {
      CountPrefixOneLess(b, b', c, pos, row - 1, 8);
    }
  }

  /** A move on an empty square fills exactly one square: flips only turn
      opponent pieces into pieces of the mover. */
  lemma ApplyMoveAddsOnePiece(b: Board, pos: Position, p: Side)
    requires WellFormed(b) && OnBoard(pos) && At(b, pos) == Empty
    ensures Count(ApplyMove(b, pos, p), Empty) == Count(b, Empty) - 1
    ensures Count(ApplyMove(b, pos, p), Black) + Count(ApplyMove(b, pos, p), White)
         == Count(b, Black) + Count(b, White) + 1
  {
    var b' := ApplyMove(b, pos, p);
    ApplyMoveCells(b, pos, p);
    forall x, y | 0 <= x < 8 && 0 <= y < 8 && Position(x, y) != pos
      ensures b'[x][y] == Empty <==> b[x][y] == Empty
    {
      if Captured(b, pos, p, x, y) {
        CapturedIsOpponent(b, pos, p, x, y);
      }
    }
    CountPrefixOneLess(b, b', Empty, pos, |b|, 0);
    ScoresPartitionBoard(b);
    ScoresPartitionBoard(b');
  }

  /** Playing any of validMoves adds exactly one piece to the board, and
      the scores still sum to at most 64. */
  lemma ValidMoveAddsOnePiece(b: Board, p: Side, pos: Position)
    requires WellFormed(b) && pos in LegalMoves(b, p)
    ensures OnBoard(pos)
    ensures Count(ApplyMove(b, pos, p), Black) + Count(ApplyMove(b, pos, p), White)
         == Count(b, Black) + Count(b, White) + 1
    ensures Count(ApplyMove(b, pos, p), Black) + Count(ApplyMove(b, pos, p), White) <= 64
  {
    ValidMoveIsEmptySquare(b, p, pos);
    ApplyMoveAddsOnePiece(b, pos, p);
    ScoresPartitionBoard(ApplyMove(b, pos, p));
  }

  /** The game-over banner's verdict. */
  datatype Outcome = BlackWins | WhiteWins | Draw

  function Winner(blackCount: int, whiteCount: int): (w: Outcome)
    ensures w == BlackWins <==> blackCount > whiteCount
    ensures w == WhiteWins <==> whiteCount > blackCount
    ensures w == Draw <==> blackCount == whiteCount
  {
    if blackCount > whiteCount then BlackWins
    else if whiteCount > blackCount then WhiteWins
    else Draw
  }
}
