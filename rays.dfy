/** Ray geometry and the capture test of one direction (checkDirection in
    src/components/Game.tsx), stated on board values. */
module Rays {
  import opened Types

  /** The coordinate k unit steps from x, written without multiplication. */
  function Step(x: int, dx: int, k: int): int {
    if dx > 0 then x + k else if dx < 0 then x - k else x
  }

  /** The square k steps away from pos in direction d. */
  function Along(pos: Position, d: Delta, k: int): Position {
    Position(Step(pos.row, d.dx, k), Step(pos.col, d.dy, k))
  }

  /** Squares left before a ray from pos leaves the board (the ray's termination measure). */
  function Budget(pos: Position, d: Delta, k: int): int
    requires IsUnit(d)
  {
    if d.dx > 0 then 8 - pos.row - k
    else if d.dx < 0 then pos.row - k + 1
    else if d.dy > 0 then 8 - pos.col - k
    else pos.col - k + 1
  }

  /** The contents of Along(pos, d, k), Along(pos, d, k + 1), ... up to the edge. */
  function RayFrom(b: Board, pos: Position, d: Delta, k: int): seq<Cell>
    requires WellFormed(b) && IsUnit(d)
    decreases Budget(pos, d, k)
  {
    var q := Along(pos, d, k);
    if !OnBoard(q) then [] else [At(b, q)] + RayFrom(b, pos, d, k + 1)
  }

  /** What checkDirection scans: the squares after pos in direction d. */
  function RayOf(b: Board, pos: Position, d: Delta): seq<Cell>
    requires WellFormed(b) && IsUnit(d)
  {
    RayFrom(b, pos, d, 1)
  }

  /** Number of opponent pieces at the head of a ray. */
  function RunLength(ray: seq<Cell>, p: Side): (n: nat)
    ensures n <= |ray|
    ensures forall i :: 0 <= i < n ==> ray[i] == Opponent(p)
    ensures n < |ray| ==> ray[n] != Opponent(p)
  {
    if ray == [] || ray[0] != Opponent(p) then 0 else 1 + RunLength(ray[1..], p)
  }

  /** A non-empty run of opponent pieces closed by a piece of p. */
  predicate Brackets(ray: seq<Cell>, p: Side) {
    var n := RunLength(ray, p);
    0 < n < |ray| && ray[n] == p
  }

  /** Placing p at pos captures along d. */
  predicate Captures(b: Board, pos: Position, d: Delta, p: Side)
    requires WellFormed(b) && IsUnit(d)
  {
    Brackets(RayOf(b, pos, d), p)
  }

  /** Reference reading of a capture: some k >= 1 holds p and everything
      before it is the opponent. */
  lemma BracketsIff(ray: seq<Cell>, p: Side)
    ensures Brackets(ray, p) <==>
      exists k :: 1 <= k < |ray| && ray[k] == p && forall i :: 0 <= i < k ==> ray[i] == Opponent(p)
  {
    var n := RunLength(ray, p);
    if exists k :: 1 <= k < |ray| && ray[k] == p && forall i :: 0 <= i < k ==> ray[i] == Opponent(p) {
      var k :| 1 <= k < |ray| && ray[k] == p && forall i :: 0 <= i < k ==> ray[i] == Opponent(p);
      assert n == k;
    }
  }

  /** The element i of a ray is the square k + i steps away, and that square is on the board. */
  lemma {:induction false} RayFromAt(b: Board, pos: Position, d: Delta, k: int, i: int)
    requires WellFormed(b) && IsUnit(d)
    requires 0 <= i < |RayFrom(b, pos, d, k)|
    ensures OnBoard(Along(pos, d, k + i))
    ensures RayFrom(b, pos, d, k)[i] == At(b, Along(pos, d, k + i))
    decreases i
  {
    if i > 0 {
      RayFromAt(b, pos, d, k + 1, i - 1);
    }
  }

  /** The ray runs at least as far as the last on-board square asked for
      (the board is convex). */
  lemma {:induction false} RayFromReaches(b: Board, pos: Position, d: Delta, k: int, i: int)
    requires WellFormed(b) && IsUnit(d) && 0 <= i
    requires OnBoard(Along(pos, d, k)) && OnBoard(Along(pos, d, k + i))
    ensures |RayFrom(b, pos, d, k)| > i
    decreases i
  {
    if i > 0 {
      RayFromReaches(b, pos, d, k + 1, i - 1);
    }
  }

  /** Index of square (x, y) on the ray from pos along d: k >= 1 when it is
      Along(pos, d, k), and 0 when it is not on the ray. */
  function RayIndex(pos: Position, d: Delta, x: int, y: int): (k: int)
    ensures k >= 0
    ensures k >= 1 ==> Along(pos, d, k) == Position(x, y)
  {
    var k := if d.dx > 0 then x - pos.row
             else if d.dx < 0 then pos.row - x
             else if d.dy > 0 then y - pos.col
             else pos.col - y;
    if k >= 1 && Along(pos, d, k) == Position(x, y) then k else 0
  }

  /** One more step along d moves by (dx, dy). */
  lemma AlongNext(pos: Position, d: Delta, k: int)
    requires IsUnit(d)
    ensures Along(pos, d, k + 1) == Position(Along(pos, d, k).row + d.dx, Along(pos, d, k).col + d.dy)
  {
  }

  lemma AlongIndex(pos: Position, d: Delta, k: int)
    requires IsUnit(d) && k >= 1
    ensures RayIndex(pos, d, Along(pos, d, k).row, Along(pos, d, k).col) == k
  {
  }

  /** Two rays from one square in different directions never meet. */
  lemma AlongInjective(pos: Position, d1: Delta, d2: Delta, k1: int, k2: int)
    requires IsUnit(d1) && IsUnit(d2) && k1 >= 1 && k2 >= 1
    requires Along(pos, d1, k1) == Along(pos, d2, k2)
    ensures d1 == d2 && k1 == k2
  {
  }

  /** A ray reads only the squares on it. */
  lemma {:induction false} RayFromAgree(b1: Board, b2: Board, pos: Position, d: Delta, k: int)
    requires WellFormed(b1) && WellFormed(b2) && IsUnit(d) && k >= 1
    requires forall x, y :: IsValidPosition(x, y) && RayIndex(pos, d, x, y) >= k ==> b1[x][y] == b2[x][y]
    ensures RayFrom(b1, pos, d, k) == RayFrom(b2, pos, d, k)
    decreases Budget(pos, d, k)
  {
    var q := Along(pos, d, k);
    if OnBoard(q) {
      AlongIndex(pos, d, k);
      RayFromAgree(b1, b2, pos, d, k + 1);
    }
  }

  /** A first square that is off the board, or not the opponent, rules out a capture. */
  lemma NoCaptureUnlessOpponentAdjacent(b: Board, pos: Position, d: Delta, p: Side)
    requires WellFormed(b) && IsUnit(d)
    requires !OnBoard(Along(pos, d, 1)) || At(b, Along(pos, d, 1)) != Opponent(p)
    ensures !Captures(b, pos, d, p)
  {
  }

  /** With m opponent pieces next to pos followed by a non-opponent square on
      the board, the direction captures exactly when m >= 1 and that square holds p. */
  lemma CapturesAfterRun(b: Board, pos: Position, d: Delta, p: Side, m: int)
    requires WellFormed(b) && IsUnit(d) && m >= 0
    requires OnBoard(Along(pos, d, 1)) && OnBoard(Along(pos, d, m + 1))
    requires forall j :: 1 <= j <= m ==> OnBoard(Along(pos, d, j)) && At(b, Along(pos, d, j)) == Opponent(p)
    requires At(b, Along(pos, d, m + 1)) != Opponent(p)
    ensures Captures(b, pos, d, p) <==> m >= 1 && At(b, Along(pos, d, m + 1)) == p
    ensures RunLength(RayOf(b, pos, d), p) == m
  {
    var ray := RayOf(b, pos, d);
    RayFromReaches(b, pos, d, 1, m);
    forall i | 0 <= i <= m
      ensures ray[i] == At(b, Along(pos, d, i + 1))
      ensures i < m ==> ray[i] == Opponent(p)
      ensures i == m ==> ray[i] != Opponent(p)
    {
      RayFromAt(b, pos, d, 1, i);
    }
    var n := RunLength(ray, p);
    assert ray[m] != Opponent(p);
    assert n == m;
  }
}
