/** The turn controller of src/components/Game.tsx: the four pieces of React
    state (board, currentPlayer, validMoves, gameOver) as the fields of one
    object, with handleMove, the pass/game-over effect and calculateScores
    as its methods. The effect that recomputes validMoves whenever the board
    or the player changes is the explicit call UpdateValidMoves at the end
    of every method that changes either. */
module Controller {
  import opened Types
  import opened Rules
  import opened Flips
  import opened Scores
  import opened Opening
  import opened Engine

  class Game {
    var board: array2<Cell>
    var currentPlayer: Side
    var validMoves: seq<Position>
    var gameOver: bool

    /** validMoves is always the legal-move list of the side to move, and
        the game is over only when neither side can move. */
    ghost predicate Valid()
      reads this, board
    {
      Is8x8(board) &&
      validMoves == LegalMoves(Cells(board), currentPlayer) &&
      (gameOver ==> validMoves == [] && !HasLegalMove(Cells(board), Opponent(currentPlayer)))
    }

    /** The initial state: the starting position, black to move, and the
        valid moves the first run of the effect computes. */
    constructor()
      ensures Valid() && fresh(board)
      ensures Cells(board) == InitialBoard()
      ensures currentPlayer == Black && !gameOver
      ensures validMoves == OpeningMoves
    {
      var g := new Cell[8, 8]((_, _) => Empty);
      g[3, 3] := White;
      g[3, 4] := Black;
      g[4, 3] := Black;
      g[4, 4] := White;
      SameBoard(Cells(g), InitialBoard());
      board := g;
      currentPlayer := Black;
      gameOver := false;
      var moves := ValidMovesOf(g, Black);
      validMoves := moves;
      InitialLegalMoves();
    }

    /** updateValidMoves(board, currentPlayer) followed by setValidMoves. */
    method UpdateValidMoves()
      requires Is8x8(board)
      modifies this`validMoves
      ensures validMoves == LegalMoves(Cells(board), currentPlayer)
    {
      validMoves := ValidMovesOf(board, currentPlayer);
    }

    /** calculateScores: count black and white pieces over the board. */
    method CalculateScores() returns (blackCount: nat, whiteCount: nat)
      requires Is8x8(board)
      ensures blackCount == Count(Cells(board), Black)
      ensures whiteCount == Count(Cells(board), White)
      ensures blackCount + whiteCount <= 64
    {
      ghost var b := Cells(board);
      blackCount, whiteCount := 0, 0;
      for i := 0 to 8
        invariant blackCount == CountPrefix(b, Black, i, 0)
        invariant whiteCount == CountPrefix(b, White, i, 0)
      {
        for j := 0 to 8
          invariant blackCount == CountPrefix(b, Black, i, j)
          invariant whiteCount == CountPrefix(b, White, i, j)
        {
          if board[i, j] == Black {
            blackCount := blackCount + 1;
          }
          if board[i, j] == White {
            whiteCount := whiteCount + 1;
          }
        }
      }
      ScoresPartitionBoard(b);
    }

    /** handleMove: ignore a click off the valid-move list; otherwise play
        the move on a copy of the board and hand the turn over. */
    method HandleMove(row: int, col: int)
      requires Valid()
      modifies this
      ensures Valid()
      ensures Position(row, col) !in old(validMoves) ==>
        board == old(board) && currentPlayer == old(currentPlayer) &&
        validMoves == old(validMoves) && gameOver == old(gameOver)
      ensures Position(row, col) in old(validMoves) ==>
        IsValidPosition(row, col) && fresh(board) &&
        Cells(board) == ApplyMove(old(Cells(board)), Position(row, col), old(currentPlayer)) &&
        currentPlayer == Opponent(old(currentPlayer)) && !gameOver
      ensures old(gameOver) ==> board == old(board) && currentPlayer == old(currentPlayer) && gameOver
    {
      var pos := Position(row, col);
      if pos !in validMoves {
        return;
      }
      ValidMoveIsEmptySquare(Cells(board), currentPlayer, pos);
      var newBoard := PlayMove(board, row, col, currentPlayer);
      board := newBoard;
      currentPlayer := Opponent(currentPlayer);
      UpdateValidMoves();
    }

    /** The pass/game-over effect, as one atomic step: when the side to move
        has no valid move, end the game if the opponent has none either, and
        otherwise pass the turn to the opponent. */
    method PassStep()
      requires Valid()
      modifies this
      ensures Valid()
      ensures board == old(board) && Cells(board) == old(Cells(board))
      ensures old(gameOver) || old(validMoves) != [] ==>
        currentPlayer == old(currentPlayer) && validMoves == old(validMoves) && gameOver == old(gameOver)
      ensures !old(gameOver) && old(validMoves) == [] ==>
        (gameOver <==> !HasLegalMove(old(Cells(board)), Opponent(old(currentPlayer))))
      ensures !old(gameOver) && old(validMoves) == [] && gameOver ==>
        currentPlayer == old(currentPlayer)
      ensures !old(gameOver) && old(validMoves) == [] && !gameOver ==>
        currentPlayer == Opponent(old(currentPlayer)) && validMoves != []
    {
      if gameOver {
        return;
      }
      if |validMoves| == 0 {
        var opponentCanMove := CheckOpponentMoves(board, currentPlayer);
        if !opponentCanMove {
          gameOver := true;
          return;
        }
        currentPlayer := Opponent(currentPlayer);
        UpdateValidMoves();
        HasLegalMoveIff(Cells(board), currentPlayer);
      }
    }
  }
}
