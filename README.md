# Reversi rules engine and turn controller, modelled in Dafny

This project models the game logic of a browser Reversi (Othello) game.
All of that logic lives in `src/components/Game.tsx`, and its data types live
in `src/types.ts`.

- **Board and squares.** A board is an 8x8 grid of squares. Each square is
  `Empty`, `Black` or `White`.
- **Rules engine.**
  - `checkDirection` scans a ray for a run of opponent pieces closed by one of
    the player's own.
  - `canPlace` tries the eight directions.
  - `updateValidMoves` lists the legal squares in row-major order.
  - `flipPieces` turns the captured runs over in place.
  - `calculateScores` counts the pieces.
- **Turn controller.** Four pieces of React state (`board`, `currentPlayer`,
  `validMoves`, `gameOver`) change on a click (`handleMove`) and in an effect
  that passes the turn or ends the game.

The model has two layers:

- **Board values (`Types`, `Rays`, `Rules`, `Flips`, `Scores`, `Opening`).**
  Pure functions over `seq<seq<Cell>>` say what a capture, a legal move, a
  played move and a score are. Lemmas prove what these mean:
  - a reference reading of a capture;
  - membership, order and uniqueness of the move list;
  - which squares a move changes;
  - that the direction-by-direction flipping of the source equals flipping
    every capture read on the original board;
  - piece counts;
  - the opening position.
- **Imperative code (`Engine`, `Controller`).** It keeps the source's form.
  - The board is an `array2<Cell>`.
  - `checkDirection`, `updateValidMoves`, `checkOpponentMoves`,
    `flipPieces` and `calculateScores` are methods with the source's loops.
  - Each method is proved against the board-value functions through the
    ghost function `Engine.Cells`, which reads the array as a board value.
  - The React state is the class `Controller.Game`, and its invariant
    `Valid` ties `validMoves` to the legal moves of the side to move.

Square k steps along a direction is computed without multiplication, by the
sign of each component. Rays terminate because the number of squares left
before the edge decreases.

The model makes these choices about the code:

- **Order of flipping.** `flipPieces` handles the directions one after
  another. Each
  `checkDirection` runs on the board that the earlier directions have already
  changed. `Flips.FlipSequence` models that order. `Flips.FlipSequenceCells`
  proves it gives the same board as flipping everything read on the original
  board, because rays from one square never meet.
- **Illegal moves.** `handleMove` returns on a square not in `validMoves`
  and changes nothing; nothing raises an error.
- **Recomputing `validMoves`.** In the source an effect recomputes
  `validMoves` after each change of `board` or `currentPlayer`. Here every
  method that changes either calls `UpdateValidMoves` before it returns.
- **Passing.** The pass/game-over effect is one method, `PassStep`.

`HandleMove` does not test `gameOver`, as `handleMove` does not. In the
model it does not need to: `Valid` keeps `validMoves` empty once the game is
over, so every click is then rejected.

## Model

| member | source | states |
|---|---|---|
| `Types.Opponent` | src/components/Game.tsx:105 | the side to move next is always the other colour |
| `Types.DirectionsAreTheUnitSteps` | src/components/Game.tsx:53-62 | the direction table has eight entries, each a king step, every king step listed, no entry twice |
| `Types.ValidPositionIndexesBoard` | src/components/Game.tsx:24-26 | isValidPosition holds exactly for the row and column indices an 8x8 board has |
| `Types.SameBoard` | src/types.ts:2 | two 8x8 boards that agree on every square are the same board |
| `Rays.RunLength` | src/components/Game.tsx:82-88 | the scan crosses a run of opponent pieces only, and stops at the first square that is not the opponent's |
| `Rays.BracketsIff` | src/components/Game.tsx:70-91 | a direction captures exactly when some square k >= 1 along it holds the player and every square before it holds the opponent |
| `Rays.NoCaptureUnlessOpponentAdjacent` | src/components/Game.tsx:78-85 | if the first square is off the board, empty or the player's own, the direction does not capture |
| `Rays.CapturesAfterRun` | src/components/Game.tsx:82-90 | after m opponent pieces and then a non-opponent square, the direction captures exactly when m >= 1 and that square is the player's; the run has length m |
| `Rays.RayFromAt` | src/components/Game.tsx:78-87 | element i of a scanned ray is the on-board square i steps further along it |
| `Rays.RayFromAgree` | src/components/Game.tsx:82-88 | a scan reads only the squares on its ray |
| `Rays.AlongInjective` | src/components/Game.tsx:127-137 | rays from one square in two different directions never share a square |
| `Rules.CanCaptureIff` | src/components/Game.tsx:47-67 | canPlace over the table holds exactly when some king step captures |
| `Rules.LegalPrefixMembers` | src/components/Game.tsx:32-41 | when the scan reaches (row, col) it has pushed exactly the legal squares before it in row-major order |
| `Rules.LegalPrefixIncreasing` | src/components/Game.tsx:32-41 | the scan pushes on-board squares in strictly increasing row-major order |
| `Rules.LegalMovesExactly` | src/components/Game.tsx:29-44 | validMoves holds a square exactly when it is empty, on the board and canPlace holds there; it is in row-major order with no duplicates and no occupied square |
| `Rules.ValidMoveIsEmptySquare` | src/components/Game.tsx:34-37 | every square in validMoves is an empty square on the board |
| `Rules.HasLegalMoveIff` | src/components/Game.tsx:184-188 | validMoves is empty exactly when the side has no legal square anywhere |
| `Rules.IncreasingUnique` | src/components/Game.tsx:29-44 | two move lists in strictly increasing row-major order with the same members are equal, so the enumeration order fixes the list |
| `Flips.Place` | src/components/Game.tsx:99 | placing the piece sets the chosen square to the mover and leaves every other square as it was |
| `Flips.SetRunAhead` | src/components/Game.tsx:131-135 | while flipping a run, the next square ahead still holds what the scan read there |
| `Flips.FlipSequenceCells` | src/components/Game.tsx:127-137 | flipping the directions one after another, each re-tested on the changed board, sets to the mover exactly the squares captured on the board as it was before flipping |
| `Flips.ApplyMoveCells` | src/components/Game.tsx:98-102 | after a move the placed square and every captured square hold the mover, and every other square is unchanged |
| `Flips.CapturedIsOpponent` | src/components/Game.tsx:131-132 | a flip only overwrites an opponent piece, never the placed square |
| `Flips.CaptureFlipsNeighbour` | src/components/Game.tsx:128-135 | on a capturing direction the square next to the placed piece is captured |
| `Scores.CountPrefix` | src/components/Game.tsx:147-152 | the scan has counted at most as many pieces as squares it has passed |
| `Scores.ScoresPartitionBoard` | src/components/Game.tsx:141-155 | black, white and empty squares add up to 64, so blackCount + whiteCount <= 64 |
| `Scores.CountPrefixOneLess` | src/components/Game.tsx:147-152 | changing whether one square holds a colour, and no other, moves that colour's count by one |
| `Scores.ApplyMoveAddsOnePiece` | src/components/Game.tsx:98-102 | a move on an empty square leaves one empty square fewer and one piece more |
| `Scores.ValidMoveAddsOnePiece` | src/components/Game.tsx:94-106 | playing any square in validMoves adds exactly one piece, and the two scores still sum to at most 64 |
| `Scores.Winner` | src/components/Game.tsx:229-233 | black wins exactly when blackCount > whiteCount, white exactly when whiteCount > blackCount, otherwise a draw |
| `Opening.InitialBoard` | src/components/Game.tsx:6-16 | white on (3,3) and (4,4), black on (3,4) and (4,3), every other square empty |
| `Opening.OpeningMovesLegal` | src/components/Game.tsx:6-19 | (2,3), (3,2), (4,5) and (5,4) are legal for black at the start |
| `Opening.InitialSquare` | src/components/Game.tsx:6-19 | a square of the starting position is legal for black exactly when it is one of those four |
| `Opening.InitialLegalMoves` | src/components/Game.tsx:29-44 | black's validMoves at the start are exactly (2,3), (3,2), (4,5), (5,4), in that order |
| `Opening.FirstMoveDirections` | src/components/Game.tsx:127-128 | at (2,3) on the start board only the downward direction captures, over one white piece |
| `Opening.FirstMoveCaptured` | src/components/Game.tsx:127-136 | black's move at (2,3) captures exactly (3,3) |
| `Opening.FirstMoveFlipsOne` | src/components/Game.tsx:98-102 | after black's move at (2,3), black holds (2,3), (3,3), (3,4), (4,3), white only (4,4), all else empty |
| `Engine.CheckDirection` | src/components/Game.tsx:70-91 | the loop returns true exactly when the direction captures on the array's board, and terminates |
| `Engine.CanPlace` | src/components/Game.tsx:47-67 | returns true exactly when some direction of the table captures |
| `Engine.Placeable` | src/components/Game.tsx:34-37 | the scan's test holds exactly when the square is a legal move |
| `Engine.ValidMovesOf` | src/components/Game.tsx:29-42 | the nested loops build exactly the legal-move list, in row-major order |
| `Engine.CheckOpponentMoves` | src/components/Game.tsx:165-178 | returns true exactly when the opponent has a legal square |
| `Engine.CopyBoard` | src/components/Game.tsx:98 | the copy is a new array holding the same board |
| `Engine.SetCell` | src/components/Game.tsx:99 | storing one square changes the board value at that square only |
| `Engine.FlipRun` | src/components/Game.tsx:129-135 | on a capturing direction the inner loop turns exactly the opponent run over, stays on the board and terminates |
| `Engine.FlipPieces` | src/components/Game.tsx:110-138 | the array ends holding the direction-by-direction flip of the board it started with |
| `Engine.PlayMove` | src/components/Game.tsx:98-102 | copy, place and flip produce a fresh array holding the played move, leaving the old array alone |
| `Controller.Game.constructor` | src/components/Game.tsx:6-21 | the game starts on the starting position with black to move, not over, and with the four opening moves valid |
| `Controller.Game.UpdateValidMoves` | src/components/Game.tsx:29-44 | validMoves becomes the legal-move list of the side to move on the current board |
| `Controller.Game.CalculateScores` | src/components/Game.tsx:141-155 | returns the numbers of black and white pieces on the board, which sum to at most 64 |
| `Controller.Game.HandleMove` | src/components/Game.tsx:94-107 | a square not in validMoves changes nothing; a valid one puts a fresh array holding the played move on the board, hands the turn to the opponent and keeps the state invariant |
| `Controller.Game.PassStep` | src/components/Game.tsx:181-200 | once the game is over nothing changes; with moves available nothing changes; with none, the game ends exactly when the opponent has none either, otherwise only the turn passes and the opponent then has a valid move; the board never changes |

## Left out

- Rendering is not modelled. This covers `src/components/GameBoard.tsx`, `src/App.tsx` and the JSX of `Game.tsx`, apart from the winner comparison.
- `console.log` calls are output only.
- The 1000 ms `setTimeout` before a pass, and its `clearTimeout` cleanup, are not modelled. `PassStep` makes the pass at once. A pending timer cancelled by a later state change is not represented.
- React's scheduling of `useState` and `useEffect` is not modelled. The model recomputes `validMoves` synchronously, so the short stale renders between a change and its effect are not represented. This includes the first render, where `validMoves` is still `[]`.
- The `!board.length` guard in `calculateScores` is not modelled, because the model's board is always 8x8.
- There is no move-selection strategy. The source has none.
- Engine.CheckDirection: requires a king-step direction, since every caller passes an entry of the direction table. With `(0, 0)` the source's loop reads the start square over and over: it returns false at once when that square is empty or the player's own, and never ends when it holds the opponent.
- Controller.Game.HandleMove: the piece count after a move is not in this method's contract. It is stated on board values by `Scores.ValidMoveAddsOnePiece`, which applies to the board that `HandleMove` ensures. That the previous board array stays untouched follows from the method's frame (`modifies this`), not from an `ensures`.
- Controller.Game.CalculateScores: requires an 8x8 board in place of the `!board.length` early return.
- Controller.Game.PassStep: the source's stale-state behaviour after a pass is not modelled. When the timer hands the turn over, the effect runs again while `validMoves` still holds the passing side's empty list; `checkOpponentMoves` then asks about the side that just passed, finds no move and sets `gameOver`, so in the source every pass ends the game and `handleMove`, which does not test `gameOver`, keeps accepting the new side's moves. The model recomputes `validMoves` before the effect runs again and ends the game only when neither side can move.
