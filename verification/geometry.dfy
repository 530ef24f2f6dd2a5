/** Squares of the 9x9 board and the straight-line ("rook") relations between
    them. The `Square` class is not part of this model; these definitions
    state, as assumptions, the behaviour the board and search code rely on:
    - `sq(c, r)` names the square in column `c` and row `r`, both 0..8;
    - `index()` is `row * 9 + col`, the order `kingPosition` and the position
      encoding scan the board in;
    - `rookMove(dir, dist)` steps `dist` squares in direction `dir`
      (0 = north/row+1, 1 = east/col+1, 2 = south/row-1, 3 = west/col-1) and
      yields `null` off the board;
    - `between(other)` is the coordinate-wise midpoint, rounded down;
    - `isRookMove(other)` holds for distinct squares on one row or column;
    - `isEdge()` holds on the 32 perimeter squares. */
module Geometry {
  import opened Wrappers

  const SIZE: int := 9

  type Coord = i: int | 0 <= i < 9

  datatype Square = Sq(col: Coord, row: Coord) {
    /** Linear index used for enumeration and for the position encoding. */
    function Index(): (r: nat)
      ensures r < 81
    {
      row * 9 + col
    }
  }

  function SquareAt(i: nat): (s: Square)
    requires i < 81
    ensures s.Index() == i
  {
    Sq(i % 9, i / 9)
  }

  lemma IndexInjective(s: Square, t: Square)
    ensures s.Index() == t.Index() <==> s == t
  {
    if s.Index() == t.Index() {
      assert s.row == s.Index() / 9 && t.row == t.Index() / 9;
    }
  }

  type Dir = d: int | 0 <= d < 4

  const NORTH: Dir := 0
  const EAST: Dir := 1
  const SOUTH: Dir := 2
  const WEST: Dir := 3

  /** `Square.rookMove`: the square `dist` steps away in direction `dir`,
      or `None` when that leaves the board. */
  function RookMove(s: Square, dir: Dir, dist: nat): (r: Option<Square>)
    ensures r.Some? <==>
              && (dir == NORTH ==> s.row + dist < 9) && (dir == SOUTH ==> dist <= s.row)
              && (dir == EAST ==> s.col + dist < 9) && (dir == WEST ==> dist <= s.col)
    ensures r.Some? ==> r.value.row == s.row + (if dir == NORTH then dist as int else if dir == SOUTH then -(dist as int) else 0)
    ensures r.Some? ==> r.value.col == s.col + (if dir == EAST then dist as int else if dir == WEST then -(dist as int) else 0)
    ensures r.Some? ==> (r.value.col == s.col) == (dir == NORTH || dir == SOUTH || dist == 0)
    ensures r.Some? ==> (r.value.row == s.row) == (dir == EAST || dir == WEST || dist == 0)
    ensures r.Some? ==> Distance(s, r.value) == dist
  {
    var c := if dir == EAST then s.col + dist else if dir == WEST then s.col - dist else s.col;
    var w := if dir == NORTH then s.row + dist else if dir == SOUTH then s.row - dist else s.row;
    if 0 <= c < 9 && 0 <= w < 9 then Some(Sq(c, w)) else None
  }

  /** `Square.between`: the midpoint of two squares, rounded down. */
  function Between(a: Square, b: Square): Square
  {
    Sq((a.col + b.col) / 2, (a.row + b.row) / 2)
  }

  predicate IsRookMove(a: Square, b: Square)
  {
    a != b && (a.col == b.col || a.row == b.row)
  }

  predicate IsEdge(s: Square)
  {
    s.col == 0 || s.col == 8 || s.row == 0 || s.row == 8
  }

  predicate IsCorner(s: Square)
  {
    (s.col == 0 || s.col == 8) && (s.row == 0 || s.row == 8)
  }

  function Abs(x: int): nat
  {
    if x < 0 then -x else x
  }

  /** Number of single steps separating two squares on one line. */
  function Distance(a: Square, b: Square): nat
  {
    Abs(a.col - b.col) + Abs(a.row - b.row)
  }

  /** `Square.direction`: the direction of a rook move. */
  function Direction(a: Square, b: Square): (d: Dir)
    requires IsRookMove(a, b)
    ensures RookMove(a, d, Distance(a, b)) == Some(b)
  {
    if a.col == b.col then (if b.row > a.row then NORTH else SOUTH)
    else (if b.col > a.col then EAST else WEST)
  }

  /** Reference definition: `s` lies strictly inside the segment from `a`
      to `b` on their common row or column. */
  predicate StrictlyBetween(a: Square, s: Square, b: Square)
  {
    || (a.col == s.col == b.col
        && ((a.row < s.row < b.row) || (b.row < s.row < a.row)))
    || (a.row == s.row == b.row
        && ((a.col < s.col < b.col) || (b.col < s.col < a.col)))
  }

  /** Two steps from `s` the midpoint is the first step: this is what makes
      `between` the flanked square in every capture test. */
  lemma BetweenIsMidpoint(s: Square, dir: Dir)
    requires RookMove(s, dir, 2).Some?
    ensures RookMove(s, dir, 1).Some?
    ensures Between(s, RookMove(s, dir, 2).value) == RookMove(s, dir, 1).value
  {
  }

  /** The squares strictly between a rook move's ends are exactly the
      intermediate steps along its direction. */
  lemma StepsAreBetween(a: Square, b: Square, k: nat)
    requires IsRookMove(a, b)
    requires 0 < k < Distance(a, b)
    ensures RookMove(a, Direction(a, b), k).Some?
    ensures StrictlyBetween(a, RookMove(a, Direction(a, b), k).value, b)
  {
  }

  lemma BetweenIsStep(a: Square, s: Square, b: Square)
    requires IsRookMove(a, b)
    requires StrictlyBetween(a, s, b)
    ensures 0 < Distance(a, s) < Distance(a, b)
    ensures RookMove(a, Direction(a, b), Distance(a, s)) == Some(s)
  {
    var d, k := Direction(a, b), Distance(a, s);
    if a.col == b.col {
      assert s.col == a.col;
      if b.row > a.row {
        assert d == NORTH && k == s.row - a.row;
      } else {
        assert d == SOUTH && k == a.row - s.row;
      }
    } else {
      assert s.row == a.row;
      if b.col > a.col {
        assert d == EAST && k == s.col - a.col;
      } else {
        assert d == WEST && k == a.col - s.col;
      }
    }
  }

  // The throne and the four squares around it.
  const THRONE: Square := Sq(4, 4)
  const NTHRONE: Square := Sq(4, 5)
  const STHRONE: Square := Sq(4, 3)
  const WTHRONE: Square := Sq(3, 4)
  const ETHRONE: Square := Sq(5, 4)

  /** The throne neighbour lying in direction `d`. */
  function ThroneNeighbour(d: Dir): (s: Square)
    ensures RookMove(THRONE, d, 1) == Some(s)
  {
    if d == NORTH then NTHRONE
    else if d == EAST then ETHRONE
    else if d == SOUTH then STHRONE
    else WTHRONE
  }
}
