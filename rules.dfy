/** Legality of a move and the enumeration of legal moves (canPlace and
    updateValidMoves in src/components/Game.tsx), stated on board values. */
module Rules {
  import opened Types
  import opened Rays

  /** canPlace: some direction of the table captures. */
  predicate CanCapture(b: Board, pos: Position, p: Side)
    requires WellFormed(b)
  {
    DirectionsAreTheUnitSteps();
    exists i :: 0 <= i < 8 && Captures(b, pos, Directions[i], p)
  }

  /** Scanning the eight table entries is scanning every king step: a
      square can capture exactly when some unit direction brackets a run. */
  lemma CanCaptureIff(b: Board, pos: Position, p: Side)
    requires WellFormed(b)
    ensures CanCapture(b, pos, p) <==> exists d :: IsUnit(d) && Captures(b, pos, d, p)
  {
    DirectionsAreTheUnitSteps();
    if exists d :: IsUnit(d) && Captures(b, pos, d, p) {
      var d :| IsUnit(d) && Captures(b, pos, d, p);
      assert d in Directions;
      var i :| 0 <= i < 8 && Directions[i] == d;
      assert Captures(b, pos, Directions[i], p);
    }
  }

  /** The filter of updateValidMoves: an empty square where p captures. */
  predicate IsLegal(b: Board, pos: Position, p: Side)
    requires WellFormed(b)
  {
    OnBoard(pos) && At(b, pos) == Empty && CanCapture(b, pos, p)
  }

  /** The legal moves updateValidMoves has pushed when its scan reaches
      square (row, col): rows 0 to row - 1 whole, then columns 0 to col - 1
      of row `row`, in that order. */
  function LegalPrefix(b: Board, p: Side, row: int, col: int): seq<Position>
    requires WellFormed(b) && 0 <= row <= 8 && 0 <= col <= 8
    decreases row, col
  {
    if col == 0 then
      if row == 0 then [] else LegalPrefix(b, p, row - 1, 8)
    else
      var rest := LegalPrefix(b, p, row, col - 1);
      var pos := Position(row, col - 1);
      if IsLegal(b, pos, p) then rest + [pos] else rest
  }

  /** One more square of the row-major scan. */
  lemma LegalPrefixNext(b: Board, p: Side, row: int, col: int)
    requires WellFormed(b) && IsValidPosition(row, col)
    ensures IsLegal(b, Position(row, col), p) ==>
      LegalPrefix(b, p, row, col + 1) == LegalPrefix(b, p, row, col) + [Position(row, col)]
    ensures !IsLegal(b, Position(row, col), p) ==>
      LegalPrefix(b, p, row, col + 1) == LegalPrefix(b, p, row, col)
  {
  }

  /** What updateValidMoves stores in validMoves. */
  function LegalMoves(b: Board, p: Side): seq<Position>
    requires WellFormed(b)
  {
    LegalPrefix(b, p, |b|, 0)
  }

  /** Some square is a legal move for p. */
  ghost predicate HasLegalMove(b: Board, p: Side)
    requires WellFormed(b)
  {
    exists r, c :: IsLegal(b, Position(r, c), p)
  }

  /** The scan pushes squares in strictly increasing row-major order. */
  lemma {:induction false} LegalPrefixIncreasing(b: Board, p: Side, row: int, col: int)
    requires WellFormed(b) && 0 <= row <= 8 && 0 <= col <= 8
    ensures forall i :: 0 <= i < |LegalPrefix(b, p, row, col)| ==>
      OnBoard(LegalPrefix(b, p, row, col)[i]) && Index(LegalPrefix(b, p, row, col)[i]) < 8 * row + col
    ensures forall i, j :: 0 <= i < j < |LegalPrefix(b, p, row, col)| ==>
      Index(LegalPrefix(b, p, row, col)[i]) < Index(LegalPrefix(b, p, row, col)[j])
    decreases row, col
  {
    if col > 0 {
      LegalPrefixIncreasing(b, p, row, col - 1);
    } else if row > 0 {
      LegalPrefixIncreasing(b, p, row - 1, 8);
    }
  }

  /** The scan has pushed exactly the legal squares it has passed. */
  lemma {:induction false} LegalPrefixMembers(b: Board, p: Side, row: int, col: int)
    requires WellFormed(b) && 0 <= row <= 8 && 0 <= col <= 8
    ensures forall pos :: pos in LegalPrefix(b, p, row, col) <==> IsLegal(b, pos, p) && Index(pos) < 8 * row + col
    decreases row, col
  {
    if col > 0 {
      LegalPrefixMembers(b, p, row, col - 1);
      var last := Position(row, col - 1);
      forall pos | IsLegal(b, pos, p) && Index(pos) == 8 * row + col - 1
        ensures pos == last
      {
        if row < 8 {
          IndexInjective(pos, last);
        }
      }
    } else if row > 0 {
      LegalPrefixMembers(b, p, row - 1, 8);
    }
  }

  /** validMoves holds exactly the legal moves, each once, in row-major
      order; in particular never an occupied square. */
  lemma LegalMovesExactly(b: Board, p: Side)
    requires WellFormed(b)
    ensures forall pos :: pos in LegalMoves(b, p) <==> IsLegal(b, pos, p)
    ensures forall pos :: pos in LegalMoves(b, p) ==> OnBoard(pos) && At(b, pos) == Empty
    ensures forall i, j :: 0 <= i < j < |LegalMoves(b, p)| ==>
      Index(LegalMoves(b, p)[i]) < Index(LegalMoves(b, p)[j]) && LegalMoves(b, p)[i] != LegalMoves(b, p)[j]
  {
    LegalPrefixMembers(b, p, |b|, 0);
    LegalPrefixIncreasing(b, p, |b|, 0);
    forall pos | IsLegal(b, pos, p)
      ensures Index(pos) < 64
    {
      IndexInjective(pos, pos);
    }
  }

  /** A valid move is an empty square on the board. */
  lemma ValidMoveIsEmptySquare(b: Board, p: Side, pos: Position)
    requires WellFormed(b) && pos in LegalMoves(b, p)
    ensures OnBoard(pos) && At(b, pos) == Empty
  {
    LegalMovesExactly(b, p);
  }

  /** The side to move is stuck exactly when validMoves is empty. */
  lemma HasLegalMoveIff(b: Board, p: Side)
    requires WellFormed(b)
    ensures HasLegalMove(b, p) <==> LegalMoves(b, p) != []
  {
    LegalMovesExactly(b, p);
    if HasLegalMove(b, p) {
      var r, c :| IsLegal(b, Position(r, c), p);
      assert Position(r, c) in LegalMoves(b, p);
    }
    if LegalMoves(b, p) != [] {
      var pos := LegalMoves(b, p)[0];
      assert IsLegal(b, Position(pos.row, pos.col), p);
    }
  }

  /** Two lists in strictly increasing row-major order with the same members are equal. */
  lemma {:induction false} IncreasingUnique(s: seq<Position>, t: seq<Position>)
    requires forall i, j :: 0 <= i < j < |s| ==> Index(s[i]) < Index(s[j])
    requires forall i, j :: 0 <= i < j < |t| ==> Index(t[i]) < Index(t[j])
    requires forall pos :: pos in s <==> pos in t
    ensures s == t
  {
    assert s != [] ==> s[0] in t;
    assert t != [] ==> t[0] in s;
    if s != [] {
      assert s[0] == t[0];
      forall pos
        ensures pos in s[1..] <==> pos in t[1..]
      {
        if pos in s[1..] {
          var i :| 0 <= i < |s| - 1 && s[1..][i] == pos;
          assert s[i + 1] == pos;
          assert pos in s;
          assert pos in t;
          var j :| 0 <= j < |t| && t[j] == pos;
          assert j != 0;
          assert t[1..][j - 1] == pos;
        }
        if pos in t[1..] {
          var j :| 0 <= j < |t| - 1 && t[1..][j] == pos;
          assert t[j + 1] == pos;
          assert pos in t;
          assert pos in s;
          var i :| 0 <= i < |s| && s[i] == pos;
          assert i != 0;
          assert s[1..][i - 1] == pos;
        }
      }
      IncreasingUnique(s[1..], t[1..]);
    }
  }
}
