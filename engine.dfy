/** The loops of src/components/Game.tsx that scan and update a board held
    in an 8x8 array: checkDirection, canPlace, updateValidMoves'
    enumeration, checkOpponentMoves and flipPieces. Each is proved against
    the board-value functions of Rays, Rules and Flips. */
module Engine {
  import opened Types
  import opened Rays
  import opened Rules
  import opened Flips

  predicate Is8x8(g: array2<Cell>) {
    g.Length0 == 8 && g.Length1 == 8
  }

  /** The board value an array holds. */
  ghost function Cells(g: array2<Cell>): (b: Board)
    requires Is8x8(g)
    reads g
    ensures WellFormed(b)
    ensures forall x, y :: 0 <= x < 8 && 0 <= y < 8 ==> b[x][y] == g[x, y]
  {
    seq(8, x requires 0 <= x < 8 reads g => seq(8, y requires 0 <= y < 8 reads g => g[x, y]))
  }

  /** checkDirection: walk from (row, col) + (dx, dy) over opponent pieces. */
  method CheckDirection(g: array2<Cell>, row: int, col: int, dx: int, dy: int, player: Side)
    returns (r: bool)
    requires Is8x8(g) && IsUnit(Delta(dx, dy))
    ensures r == Captures(Cells(g), Position(row, col), Delta(dx, dy), player)
  {
    ghost var b, pos, d := Cells(g), Position(row, col), Delta(dx, dy);
    ghost var ray := RayOf(b, pos, d);
    var x, y := row + dx, col + dy;
    var hasOpponent := false;
    ghost var k := 0;
    while IsValidPosition(x, y)
      invariant 0 <= k <= |ray|
      invariant Position(x, y) == Along(pos, d, k + 1)
      invariant RayFrom(b, pos, d, k + 1) == ray[k..]
      invariant hasOpponent == (k > 0)
      invariant forall i :: 0 <= i < k ==> ray[i] == Opponent(player)
      decreases |ray| - k
    {
      assert ray[k..] == [g[x, y]] + RayFrom(b, pos, d, k + 2);
      assert ray[k] == g[x, y];
      if g[x, y] == Empty {
        return false;
      }
      if g[x, y] == player {
        return hasOpponent;
      }
      hasOpponent := true;
      x, y := x + dx, y + dy;
      k := k + 1;
    }
    return false;
  }

  /** canPlace: stop at the first direction of the table that captures. */
  method CanPlace(g: array2<Cell>, row: int, col: int, player: Side) returns (r: bool)
    requires Is8x8(g)
    ensures r == CanCapture(Cells(g), Position(row, col), player)
  {
    DirectionsAreTheUnitSteps();
    for i := 0 to |Directions|
      invariant forall j :: 0 <= j < i ==> !Captures(Cells(g), Position(row, col), Directions[j], player)
    {
      var captures := CheckDirection(g, row, col, Directions[i].dx, Directions[i].dy, player);
      if captures {
        return true;
      }
    }
    return false;
  }

  /** The test both scans apply to a square: it is empty, and canPlace
      holds there for the player. */
  method Placeable(g: array2<Cell>, row: int, col: int, player: Side) returns (r: bool)
    requires Is8x8(g) && IsValidPosition(row, col)
    ensures r == IsLegal(Cells(g), Position(row, col), player)
  {
    r := false;
    if g[row, col] == Empty {
      r := CanPlace(g, row, col, player);
    }
  }

  /** The nested loops of updateValidMoves: empty squares where canPlace
      holds, pushed in row-major order. */
  method ValidMovesOf(g: array2<Cell>, player: Side) returns (moves: seq<Position>)
    requires Is8x8(g)
    ensures moves == LegalMoves(Cells(g), player)
  {
    ghost var b := Cells(g);
    moves := [];
    for row := 0 to 8
      invariant moves == LegalPrefix(b, player, row, 0)
    {
      for col := 0 to 8
        invariant moves == LegalPrefix(b, player, row, col)
      {
        var legal := Placeable(g, row, col, player);
        assert legal == IsLegal(b, Position(row, col), player);
        LegalPrefixNext(b, player, row, col);
        if legal {
          moves := moves + [Position(row, col)];
        }
      }
    }
  }

  /** checkOpponentMoves: does the opponent of player have a legal move? */
  method CheckOpponentMoves(g: array2<Cell>, player: Side) returns (r: bool)
    requires Is8x8(g)
    ensures r <==> HasLegalMove(Cells(g), Opponent(player))
  {
    ghost var b := Cells(g);
    var opponent := Opponent(player);
    for row := 0 to 8
      invariant forall x, y :: 0 <= x < row && 0 <= y < 8 ==> !IsLegal(b, Position(x, y), opponent)
    {
      for col := 0 to 8
        invariant forall x, y :: (0 <= x < row && 0 <= y < 8) || (x == row && 0 <= y < col) ==>
          !IsLegal(b, Position(x, y), opponent)
      {
        var legal := Placeable(g, row, col, opponent);
        if legal {
          return true;
        }
      }
    }
    return false;
  }

  /** handleMove's copy of the board: a fresh array with the same squares. */
  method CopyBoard(src: array2<Cell>) returns (dst: array2<Cell>)
    requires Is8x8(src)
    ensures fresh(dst) && Is8x8(dst)
    ensures Cells(dst) == Cells(src)
  {
    dst := new Cell[8, 8]((i, j) requires 0 <= i < 8 && 0 <= j < 8 reads src => src[i, j]);
    SameBoard(Cells(dst), Cells(src));
  }

  /** One array store, seen on board values. */
  method SetCell(g: array2<Cell>, x: int, y: int, p: Side)
    requires Is8x8(g) && IsValidPosition(x, y)
    modifies g
    ensures Cells(g) == Place(old(Cells(g)), Position(x, y), p)
  {
    ghost var before := Cells(g);
    g[x, y] := p;
    SameBoard(Cells(g), Place(before, Position(x, y), p));
  }

  /** The inner while loop of flipPieces, run once checkDirection has held:
      overwrite squares along (dx, dy) until the closing piece of player. */
  method FlipRun(g: array2<Cell>, row: int, col: int, dx: int, dy: int, player: Side)
    requires Is8x8(g) && IsUnit(Delta(dx, dy))
    requires Captures(Cells(g), Position(row, col), Delta(dx, dy), player)
    modifies g
    ensures Cells(g) == FlipRay(old(Cells(g)), Position(row, col), Delta(dx, dy), player)
  {
    ghost var pos, d, before := Position(row, col), Delta(dx, dy), Cells(g);
    ghost var ray := RayOf(before, pos, d);
    ghost var n := RunLength(ray, player);
    assert 0 < n < |ray| && ray[n] == player;
    var x, y := row + dx, col + dy;
    ghost var k := 1;
    SetRunEmpty(before, pos, d, player);
    AlongIndex(pos, d, k);
    SetRunAhead(before, pos, d, player, k);
    while g[x, y] != player
      invariant 1 <= k <= n + 1
      invariant Position(x, y) == Along(pos, d, k) && OnBoard(Position(x, y))
      invariant RayIndex(pos, d, x, y) == k
      invariant g[x, y] == ray[k - 1]
      invariant Cells(g) == SetRun(before, pos, d, player, k - 1)
      decreases n + 1 - k
    {
      assert k <= n;
      SetCell(g, x, y, player);
      SetRunNext(before, pos, d, player, k);
      AlongNext(pos, d, k);
      x, y := x + dx, y + dy;
      k := k + 1;
      AlongIndex(pos, d, k);
      SetRunAhead(before, pos, d, player, k);
    }
    assert k - 1 == n;
  }

  /** flipPieces: for each direction in turn, when checkDirection holds on
      the board as it now stands, flip the run up to the closing piece. */
  method FlipPieces(g: array2<Cell>, row: int, col: int, player: Side)
    requires Is8x8(g)
    modifies g
    ensures Cells(g) == FlipSequence(old(Cells(g)), Position(row, col), player, 8)
  {
    DirectionsAreTheUnitSteps();
    for i := 0 to |Directions|
      invariant Cells(g) == FlipSequence(old(Cells(g)), Position(row, col), player, i)
    {
      var dx, dy := Directions[i].dx, Directions[i].dy;
      var captures := CheckDirection(g, row, col, dx, dy, player);
      if captures {
        FlipRun(g, row, col, dx, dy, player);
      }
    }
  }

  /** The body of handleMove once the move is known to be valid: copy the
      board, place the piece, flip. The board passed in is left as it was. */
  method PlayMove(g: array2<Cell>, row: int, col: int, player: Side) returns (ng: array2<Cell>)
    requires Is8x8(g) && IsValidPosition(row, col)
    ensures fresh(ng) && Is8x8(ng)
    ensures Cells(ng) == ApplyMove(Cells(g), Position(row, col), player)
  {
    ng := CopyBoard(g);
    SetCell(ng, row, col, player);
    FlipPieces(ng, row, col, player);
  }
}
