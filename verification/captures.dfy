/** The capture rules run by `makeMove`: `throne`, `throneEmpty`,
    `possibleremove` and `capture`. Every rule reads the grid as it stands
    after the rules before it, so each is a function from board to board,
    applied in the source's order. All of them only ever clear squares. */
module Captures {
  import opened Wrappers
  import opened Geometry
  import opened Pieces
  import opened Boards

  // ---------------------------------------------------------------------
  // What a capture step may do

  /** Fields that capture processing never touches. */
  predicate SameFrame(a: Board, b: Board)
  {
    a.turn == b.turn && a.repeated == b.repeated && a.seen == b.seen
    && a.moves == b.moves && a.limit == b.limit
  }

  /** Every square of `b` is as in `a` or has been emptied. */
  predicate ClearsOnly(a: Grid, b: Grid)
  {
    forall i | 0 <= i < 81 :: b[i] == a[i] || b[i] == Empty
  }

  predicate KeepsSide(a: Grid, b: Grid, side: Side)
  {
    forall i | 0 <= i < 81 :: a[i] == side ==> b[i] == side
  }

  predicate KeepsKings(a: Grid, b: Grid)
  {
    forall i | 0 <= i < 81 :: a[i] == King ==> b[i] == King
  }

  /** The destination holds the mover's piece, or has been emptied. */
  predicate Friendly(b: Board, to: Square)
  {
    Get(b, to) == Empty || Get(b, to) == b.turn || (b.turn == White && Get(b, to) == King)
  }

  /** A WHITE piece or the KING has moved, and no KING sits on a throne
      surrounded by BLACK: no rule can take a KING. */
  predicate KingSafeMove(b: Board, to: Square)
  {
    b.turn == White && !SurroundFires(b) && IsDefender(Get(b, to))
  }

  /** The effect of any part of capture processing after a move to `to`:
      squares are only emptied, the mover's own pieces survive, the only
      winner ever declared is BLACK and only by taking the (single) KING,
      and the capture flag is set whenever the grid changed. */
  predicate CaptureStep(a: Board, b: Board, to: Square)
  {
    && SameFrame(a, b)
    && ClearsOnly(a.grid, b.grid)
    && (b.winner == a.winner || b.winner == Some(Black))
    && (AtMostOneKing(a.grid) ==> b.winner == a.winner || NoKing(b.grid))
    && (Friendly(a, to) ==> KeepsSide(a.grid, b.grid, a.turn))
    && (KingSafeMove(a, to) ==> KeepsKings(a.grid, b.grid))
    && (a.captured.Some? ==> b.captured.Some?)
    && (b.grid != a.grid ==> b.captured.Some?)
  }

  /** Emptying squares never adds a KING. */
  lemma ClearingKeepsOneKing(a: Grid, c: Grid)
    requires AtMostOneKing(a) && ClearsOnly(a, c)
    ensures AtMostOneKing(c)
  {
    forall i, j | 0 <= i < 81 && 0 <= j < 81 && c[i] == King && c[j] == King
      ensures i == j
    {
      assert a[i] == King && a[j] == King;
    }
  }

  lemma CaptureStepTrans(a: Board, b: Board, c: Board, to: Square)
    requires CaptureStep(a, b, to) && CaptureStep(b, c, to)
    ensures CaptureStep(a, c, to)
  {
    if AtMostOneKing(a.grid) {
      assert AtMostOneKing(b.grid);
    }
  }

  /** `revPut(EMPTY, s)` followed by `capture = true`. */
  function Clear(b: Board, s: Square): (r: Board)
    ensures r.grid == b.grid[s.Index() := Empty]
    ensures r.captured == Some(Placement(s, Get(b, s)))
    ensures SameFrame(b, r) && r.winner == b.winner
  {
    b.(grid := b.grid[s.Index() := Empty], captured := Some(Placement(s, Get(b, s))))
  }

  /** Clearing the only KING leaves none. */
  lemma ClearingTheKing(g: Grid, k: Square)
    requires At(g, k) == King
    ensures AtMostOneKing(g) ==> NoKing(g[k.Index() := Empty])
  {
  }

  /** Remove the KING that `kingPosition()` reports and declare BLACK the
      winner, as the king-capturing branches do. */
  function TakeKing(b: Board, to: Square): (r: Board)
    requires !NoKing(b.grid)
    requires !KingSafeMove(b, to)
    ensures CaptureStep(b, r, to)
    ensures r.winner == Some(Black)
    ensures AtMostOneKing(b.grid) ==> NoKing(r.grid)
  {
    var k := KingPosition(b.grid).value;
    ClearingTheKing(b.grid, k);
    Clear(b, k).(winner := Some(Black))
  }

  // ---------------------------------------------------------------------
  // The throne and its neighbours

  predicate NoKingBesideThrone(b: Board)
  {
    Get(b, NTHRONE) != King && Get(b, STHRONE) != King
    && Get(b, WTHRONE) != King && Get(b, ETHRONE) != King
  }

  /** The test at the head of `makeMove`'s first capture loop. */
  predicate NoKingNearThrone(b: Board)
  {
    Get(b, THRONE) != King && NoKingBesideThrone(b)
  }

  predicate Surrounded(b: Board)
  {
    Get(b, NTHRONE) == Black && Get(b, STHRONE) == Black
    && Get(b, ETHRONE) == Black && Get(b, WTHRONE) == Black
  }

  /** The KING is on the throne and all four throne neighbours are BLACK. */
  predicate SurroundFires(b: Board)
  {
    Get(b, THRONE) == King && Surrounded(b)
  }

  /** The throne neighbour in direction `d` is WHITE and the other three
      are BLACK. */
  predicate FlankedThrone(b: Board, d: Dir)
  {
    && Get(b, ThroneNeighbour(d)) == White
    && (d == NORTH || Get(b, NTHRONE) == Black)
    && (d == SOUTH || Get(b, STHRONE) == Black)
    && (d == EAST || Get(b, ETHRONE) == Black)
    && (d == WEST || Get(b, WTHRONE) == Black)
  }

  /** The KING on the throne with four BLACK neighbours is taken. */
  function SurroundCapture(b: Board, to: Square): (r: Board)
    ensures CaptureStep(b, r, to)
    ensures SurroundFires(b) ==> r.winner == Some(Black)
    ensures SurroundFires(b) && AtMostOneKing(b.grid) ==> NoKing(r.grid)
    ensures !SurroundFires(b) ==> r == b
  {
    if SurroundFires(b) then
      assert !NoKing(b.grid) by { assert b.grid[THRONE.Index()] == King; }
      TakeKing(b, to)
    else b
  }

  /** The flank case of `throne` in direction `d` applies: that throne
      neighbour is WHITE and the other three are BLACK, a BLACK piece stands
      on `to`, and the square midway between the neighbour and `to` holds
      WHITE. */
  predicate ThroneFlankFires(b: Board, to: Square, d: Dir)
  {
    FlankedThrone(b, d) && Get(b, Between(ThroneNeighbour(d), to)) == White && Get(b, to) == Black
  }

  /** One of the four WHITE-neighbour cases of `throne`: the WHITE piece
      midway between `to` and that neighbour is removed. */
  function ThroneFlank(b: Board, to: Square, d: Dir): (r: Board)
    ensures CaptureStep(b, r, to)
    ensures KeepsKings(b.grid, r.grid)
    ensures r.winner == b.winner
    ensures ThroneFlankFires(b, to, d) ==> r.grid == b.grid[Between(ThroneNeighbour(d), to).Index() := Empty]
    ensures !ThroneFlankFires(b, to, d) ==> r == b
  {
    if ThroneFlankFires(b, to, d) then Clear(b, Between(ThroneNeighbour(d), to)) else b
  }

  /** At most one flank case applies to a board: each needs a different
      throne neighbour to be the WHITE one. */
  lemma ThroneFlanksExclusive(b: Board, to: Square, d: Dir, e: Dir)
    requires ThroneFlankFires(b, to, d) && ThroneFlankFires(b, to, e)
    ensures d == e
  {
  }

  /** The four WHITE-neighbour cases of `throne`, tried in the order of
      `dirs`, each on the board the previous one left. */
  function ThroneFlanks(b: Board, to: Square, dirs: seq<Dir>): (r: Board)
    ensures CaptureStep(b, r, to)
    decreases |dirs|
  {
    if dirs == [] then b
    else
      var b1 := ThroneFlank(b, to, dirs[0]);
      var b2 := ThroneFlanks(b1, to, dirs[1..]);
      CaptureStepTrans(b, b1, b2, to);
      b2
  }

  /** Running the flank cases empties the midpoint of every case that
      applies to the board they start from, and changes nothing when none
      applies. */
  lemma {:induction false} ThroneFlanksEffect(b: Board, to: Square, dirs: seq<Dir>)
    ensures forall d | d in dirs && ThroneFlankFires(b, to, d) ::
              Get(ThroneFlanks(b, to, dirs), Between(ThroneNeighbour(d), to)) == Empty
    ensures (forall d | d in dirs :: !ThroneFlankFires(b, to, d)) ==> ThroneFlanks(b, to, dirs) == b
    decreases |dirs|
  {
    if dirs != [] {
      var b1 := ThroneFlank(b, to, dirs[0]);
      var r := ThroneFlanks(b1, to, dirs[1..]);
      assert ThroneFlanks(b, to, dirs) == r;
      ThroneFlanksEffect(b1, to, dirs[1..]);
      forall d | d in dirs && ThroneFlankFires(b, to, d)
        ensures Get(r, Between(ThroneNeighbour(d), to)) == Empty
      {
        if d == dirs[0] {
          EmptyPersists(b1, r, to, Between(ThroneNeighbour(d), to));
        } else {
          if ThroneFlankFires(b, to, dirs[0]) {
            ThroneFlanksExclusive(b, to, d, dirs[0]);
          }
          assert d in dirs[1..];
        }
      }
      if forall d | d in dirs :: !ThroneFlankFires(b, to, d) {
        assert forall d | d in dirs[1..] :: d in dirs;
      }
    }
  }

  /** `Board.throne`: rules that apply while the KING is on the throne:
      the flank cases north, south, east, west, then the surround. */
  function ThroneRule(b: Board, to: Square): (r: Board)
    ensures CaptureStep(b, r, to)
    ensures Get(b, THRONE) != King ==> r == b
    ensures forall d: Dir | Get(b, THRONE) == King && ThroneFlankFires(b, to, d) ::
              Get(r, Between(ThroneNeighbour(d), to)) == Empty
    ensures SurroundFires(b) ==> r.winner == Some(Black)
    ensures SurroundFires(b) && AtMostOneKing(b.grid) ==> NoKing(r.grid)
    ensures Get(b, THRONE) == King && !Surrounded(b) && (forall d: Dir :: !ThroneFlankFires(b, to, d)) ==> r == b
  {
    if Get(b, THRONE) != King then b
    else
      var dirs := [NORTH, SOUTH, EAST, WEST];
      assert forall d: Dir :: d in dirs;
      var b1 := ThroneFlanks(b, to, dirs);
      ThroneFlanksEffect(b, to, dirs);
      var b2 := SurroundCapture(b1, to);
      CaptureStepTrans(b, b1, b2, to);
      b2
  }

  /** Around each throne neighbour the squares beyond it and on both
      sides of it are on the board. */
  lemma ThroneSurroundings(d: Dir)
    ensures RookMove(THRONE, d, 2).Some?
    ensures RookMove(ThroneNeighbour(d), (d + 1) % 4, 1).Some?
    ensures RookMove(ThroneNeighbour(d), (d + 3) % 4, 1).Some?
  {
  }

  /** The trap of `throneEmpty` in direction `d` applies: the KING stands
      beside the throne in that direction, with BLACK pieces on the square
      beyond it and on both sides of it. */
  predicate KingTrapFires(b: Board, d: Dir)
  {
    ThroneSurroundings(d);
    var n := ThroneNeighbour(d);
    && Get(b, n) == King
    && Get(b, RookMove(THRONE, d, 2).value) == Black
    && Get(b, RookMove(n, (d + 1) % 4, 1).value) == Black
    && Get(b, RookMove(n, (d + 3) % 4, 1).value) == Black
  }

  /** Every square not holding a KING keeps its piece. */
  predicate KeepsNonKings(a: Grid, b: Grid)
  {
    forall i | 0 <= i < 81 && a[i] != King :: b[i] == a[i]
  }

  /** A trapped KING beside the empty throne is removed and the side on
      move, BLACK, wins. */
  function KingBesideThrone(b: Board, to: Square, d: Dir): (r: Board)
    requires b.turn == Black
    ensures CaptureStep(b, r, to)
    ensures KeepsNonKings(b.grid, r.grid)
    ensures KingTrapFires(b, d) ==> r.grid == b.grid[ThroneNeighbour(d).Index() := Empty] && r.winner == Some(Black)
    ensures !KingTrapFires(b, d) ==> r == b
  {
    if KingTrapFires(b, d) then TakeTrappedKing(b, to, ThroneNeighbour(d)) else b
  }

  /** The removal a trap makes: the KING on `n` goes and the side on move
      wins. */
  function TakeTrappedKing(b: Board, to: Square, n: Square): (r: Board)
    requires b.turn == Black && Get(b, n) == King
    ensures CaptureStep(b, r, to)
    ensures r.grid == b.grid[n.Index() := Empty] && r.winner == Some(Black)
  {
    ClearingTheKing(b.grid, n);
    Clear(b, n).(winner := Some(b.turn))
  }

  /** Taking the KING of one trap leaves another trap in place: the square
      a trap clears is none of the squares another trap reads. */
  lemma KingTrapPersists(b: Board, to: Square, d: Dir, e: Dir)
    requires b.turn == Black && d != e && KingTrapFires(b, d)
    ensures KingTrapFires(KingBesideThrone(b, to, e), d)
  {
  }

  /** The king traps of `throneEmpty`, tried in the order of `dirs`. */
  function KingTraps(b: Board, to: Square, dirs: seq<Dir>): (r: Board)
    requires b.turn == Black
    ensures CaptureStep(b, r, to)
    ensures KeepsNonKings(b.grid, r.grid)
    decreases |dirs|
  {
    if dirs == [] then b
    else
      var b1 := KingBesideThrone(b, to, dirs[0]);
      var b2 := KingTraps(b1, to, dirs[1..]);
      CaptureStepTrans(b, b1, b2, to);
      b2
  }

  /** Running the traps removes the KING of every trap that applies to the
      board they start from and makes BLACK the winner, and changes nothing
      when none applies. */
  lemma {:induction false} KingTrapsEffect(b: Board, to: Square, dirs: seq<Dir>)
    requires b.turn == Black
    ensures forall d | d in dirs && KingTrapFires(b, d) ::
              Get(KingTraps(b, to, dirs), ThroneNeighbour(d)) == Empty
              && KingTraps(b, to, dirs).winner == Some(Black)
    ensures (forall d | d in dirs :: !KingTrapFires(b, d)) ==> KingTraps(b, to, dirs) == b
    decreases |dirs|
  {
    if dirs != [] {
      var b1 := KingBesideThrone(b, to, dirs[0]);
      var r := KingTraps(b1, to, dirs[1..]);
      assert KingTraps(b, to, dirs) == r;
      KingTrapsEffect(b1, to, dirs[1..]);
      forall d | d in dirs && KingTrapFires(b, d)
        ensures Get(r, ThroneNeighbour(d)) == Empty && r.winner == Some(Black)
      {
        if d == dirs[0] {
          EmptyPersists(b1, r, to, ThroneNeighbour(d));
        } else {
          KingTrapPersists(b, to, d, dirs[0]);
          assert d in dirs[1..];
        }
      }
      if forall d | d in dirs :: !KingTrapFires(b, d) {
        assert forall d | d in dirs[1..] :: d in dirs;
      }
    }
  }

  /** The BLACK-on-move half of `throneEmpty`: the four king traps in the
      order north, south, east, west, then the WHITE piece at `mid`. */
  function BlackOnEmptyThrone(b: Board, to: Square, mid: Square): (r: Board)
    requires b.turn == Black
    ensures CaptureStep(b, r, to)
    ensures forall d: Dir | KingTrapFires(b, d) :: Get(r, ThroneNeighbour(d)) == Empty && r.winner == Some(Black)
    ensures Get(b, mid) == White ==> Get(r, mid) == Empty
    ensures (forall d: Dir :: !KingTrapFires(b, d)) && Get(b, mid) != White ==> r == b
  {
    var dirs := [NORTH, SOUTH, EAST, WEST];
    var b1 := KingTraps(b, to, dirs);
    KingTrapsEffect(b, to, dirs);
    var b2 := if Get(b1, mid) == White then Clear(b1, mid) else b1;
    CaptureStepTrans(b, b1, b2, to);
    TrapsStand(b, b1, b2, to, dirs);
    b2
  }

  /** What the king traps left stands through a later step that keeps the
      winner. */
  lemma TrapsStand(b: Board, b1: Board, b2: Board, to: Square, dirs: seq<Dir>)
    requires dirs == [NORTH, SOUTH, EAST, WEST]
    requires forall d | d in dirs && KingTrapFires(b, d) :: Get(b1, ThroneNeighbour(d)) == Empty && b1.winner == Some(Black)
    requires CaptureStep(b1, b2, to) && b2.winner == b1.winner
    ensures forall d: Dir | KingTrapFires(b, d) :: Get(b2, ThroneNeighbour(d)) == Empty && b2.winner == Some(Black)
  {
    forall d: Dir | KingTrapFires(b, d)
      ensures Get(b2, ThroneNeighbour(d)) == Empty && b2.winner == Some(Black)
    {
      assert d in dirs;
      EmptyPersists(b1, b2, to, ThroneNeighbour(d));
    }
  }

  /** The WHITE-on-move half of `throneEmpty`: the BLACK piece at `mid` is
      removed. */
  function WhiteOnEmptyThrone(b: Board, to: Square, mid: Square): (r: Board)
    ensures CaptureStep(b, r, to)
    ensures b.turn == White && Get(b, mid) == Black ==> r.grid == b.grid[mid.Index() := Empty]
    ensures !(b.turn == White && Get(b, mid) == Black) ==> r == b
  {
    if b.turn == White && Get(b, mid) == Black then Clear(b, mid) else b
  }

  /** `Board.throneEmpty`: rules that apply while the throne is empty. The
      square midway between the throne and `to` is hostile: a piece of the
      side not on move there is removed, whether or not it stands next to
      `to`, and with no piece on its far side. When BLACK is on move, a
      trapped KING beside the throne is taken first. */
  function ThroneEmptyRule(b: Board, to: Square): (r: Board)
    ensures CaptureStep(b, r, to)
    ensures Get(b, THRONE) != Empty ==> r == b
    ensures Get(b, THRONE) == Empty && Get(b, Between(THRONE, to)) == Opp(b.turn) ==>
              Get(r, Between(THRONE, to)) == Empty
    ensures forall d: Dir | Get(b, THRONE) == Empty && b.turn == Black && KingTrapFires(b, d) ::
              Get(r, ThroneNeighbour(d)) == Empty && r.winner == Some(Black)
    ensures && Get(b, THRONE) == Empty && Get(b, Between(THRONE, to)) != Opp(b.turn)
            && (b.turn == Black ==> forall d: Dir :: !KingTrapFires(b, d))
            ==> r == b
  {
    if Get(b, THRONE) != Empty then b
    else
      var mid := Between(THRONE, to);
      var b1 := if b.turn == Black then BlackOnEmptyThrone(b, to, mid) else b;
      var b2 := WhiteOnEmptyThrone(b1, to, mid);
      CaptureStepTrans(b, b1, b2, to);
      b2
  }

  // ---------------------------------------------------------------------
  // possibleremove

  /** The squares two steps from `to`, in direction order, that are on the
      board. */
  function Targets(to: Square): (r: seq<Square>)
    ensures forall d: Dir :: RookMove(to, d, 2).Some? ==> RookMove(to, d, 2).value in r
  {
    (if RookMove(to, NORTH, 2).Some? then [RookMove(to, NORTH, 2).value] else [])
    + (if RookMove(to, EAST, 2).Some? then [RookMove(to, EAST, 2).value] else [])
    + (if RookMove(to, SOUTH, 2).Some? then [RookMove(to, SOUTH, 2).value] else [])
    + (if RookMove(to, WEST, 2).Some? then [RookMove(to, WEST, 2).value] else [])
  }

  /** The first test of `possibleremove`'s loop: with no KING on or
      beside the throne, a KING between `to` and `sq`, both BLACK, is
      taken. */
  predicate KingBetweenFires(b: Board, to: Square, sq: Square)
  {
    var mid := Between(to, sq);
    NoKingNearThrone(b) && Get(b, mid) == King && Get(b, to) == Black && Get(b, sq) == Black
  }

  /** The second test: the ordinary sandwich of an opponent piece between
      two pieces of the side on move. */
  predicate SandwichFires(b: Board, to: Square, sq: Square)
  {
    var mid := Between(to, sq);
    Get(b, mid) == Opp(b.turn) && Get(b, to) == b.turn && Get(b, sq) == b.turn
  }

  /** The third test: a BLACK piece between two defenders. */
  predicate DefenderFires(b: Board, to: Square, sq: Square)
  {
    var mid := Between(to, sq);
    Get(b, mid) == Black && IsDefender(Get(b, to)) && IsDefender(Get(b, sq))
  }

  function KingBetween(b: Board, to: Square, sq: Square): (r: Board)
    ensures CaptureStep(b, r, to)
    ensures KingBetweenFires(b, to, sq) ==> Get(r, Between(to, sq)) == Empty && r.winner == Some(Black)
    ensures !KingBetweenFires(b, to, sq) ==> r == b
  {
    if KingBetweenFires(b, to, sq) then
      ClearingTheKing(b.grid, Between(to, sq));
      Clear(b, Between(to, sq)).(winner := Some(Black))
    else b
  }

  function OrdinarySandwich(b: Board, to: Square, sq: Square): (r: Board)
    ensures CaptureStep(b, r, to)
    ensures SandwichFires(b, to, sq) ==> Get(r, Between(to, sq)) == Empty
    ensures !SandwichFires(b, to, sq) ==> r == b
  {
    if SandwichFires(b, to, sq) then Clear(b, Between(to, sq)) else b
  }

  function DefenderSandwich(b: Board, to: Square, sq: Square): (r: Board)
    ensures CaptureStep(b, r, to)
    ensures DefenderFires(b, to, sq) ==> Get(r, Between(to, sq)) == Empty
    ensures !DefenderFires(b, to, sq) ==> r == b
  {
    if DefenderFires(b, to, sq) then Clear(b, Between(to, sq)) else b
  }

  /** The body of `possibleremove`'s loop for one target `sq`: the three
      tests in order, each on the board the previous one left. Returns the
      board and the additions to the result list, one per test that
      fired. */
  function SandwichAt(b: Board, to: Square, sq: Square): (r: (Board, seq<Square>))
    ensures CaptureStep(b, r.0, to)
    ensures forall x | x in r.1 :: x == sq
  {
    var b1 := KingBetween(b, to, sq);
    var b2 := OrdinarySandwich(b1, to, sq);
    var b3 := DefenderSandwich(b2, to, sq);
    CaptureStepTrans(b, b1, b2, to);
    CaptureStepTrans(b, b2, b3, to);
    (b3, (if KingBetweenFires(b, to, sq) then [sq] else [])
         + (if SandwichFires(b1, to, sq) then [sq] else [])
         + (if DefenderFires(b2, to, sq) then [sq] else []))
  }

  function Sandwiches(b: Board, to: Square, targets: seq<Square>): (r: (Board, seq<Square>))
    ensures CaptureStep(b, r.0, to)
    ensures forall x | x in r.1 :: x in targets
    decreases |targets|
  {
    if targets == [] then (b, [])
    else
      var (b1, add) := SandwichAt(b, to, targets[0]);
      var (b2, rest) := Sandwiches(b1, to, targets[1..]);
      CaptureStepTrans(b, b1, b2, to);
      (b2, add + rest)
  }

  /** `Board.possibleremove`: runs `throne` and `throneEmpty`, then the
      sandwich tests for each target; returns the board and the list of
      targets whose midpoint was cleared. */
  function PossibleRemove(b: Board, to: Square): (r: (Board, seq<Square>))
    ensures CaptureStep(b, r.0, to)
    ensures forall x | x in r.1 :: x in Targets(to)
  {
    var b1 := ThroneRule(b, to);
    var b2 := ThroneEmptyRule(b1, to);
    var (b3, removed) := Sandwiches(b2, to, Targets(to));
    CaptureStepTrans(b, b1, b2, to);
    CaptureStepTrans(b, b2, b3, to);
    (b3, removed)
  }

  // ---------------------------------------------------------------------
  // capture

  /** The ordinary sandwich test of `capture`, on the pieces that stood on
      `to`, `sq2` and between them when `capture` was entered. */
  predicate StaleFires(b: Board, to: Square, sq2: Square)
  {
    Get(b, to) == b.turn && Get(b, sq2) == b.turn && Get(b, Between(to, sq2)) == Opp(b.turn)
  }

  /** The KING test of `capture` on an empty throne: no KING beside the
      throne, the KING between `to` and `sq2`, and BLACK on both (as read
      on entry, `p0` and `p2`). */
  predicate CaptureKingFires(b: Board, to: Square, sq2: Square, p0: Piece, p2: Piece)
  {
    NoKingBesideThrone(b) && Get(b, Between(to, sq2)) == King && p0 == Black && p2 == Black
  }

  /** The second part of `capture`, run while the throne is empty: the
      empty throne is hostile to the side not on move, and away from the
      throne a KING between two BLACK pieces is taken. */
  function EmptyThroneCapture(b: Board, to: Square, sq2: Square, p0: Piece, p2: Piece): (r: Board)
    requires p0 == Black ==> !IsDefender(Get(b, to))
    ensures CaptureStep(b, r, to)
    ensures Get(b, Between(THRONE, sq2)) == Opp(b.turn) ==> Get(r, Between(THRONE, sq2)) == Empty
    ensures CaptureKingFires(b, to, sq2, p0, p2) ==> r.winner == Some(Black)
    ensures CaptureKingFires(b, to, sq2, p0, p2) && AtMostOneKing(b.grid) ==> NoKing(r.grid)
    ensures Get(b, Between(THRONE, sq2)) != Opp(b.turn) && !CaptureKingFires(b, to, sq2, p0, p2) ==> r == b
  {
    var hostile := Between(THRONE, sq2);
    var c1 := if Get(b, hostile) == Opp(b.turn) then Clear(b, hostile) else b;
    assert forall i | 0 <= i < 81 :: (c1.grid[i] == King) == (b.grid[i] == King);
    var c2 := if CaptureKingFires(c1, to, sq2, p0, p2) then
        assert !NoKing(c1.grid) by { assert c1.grid[Between(to, sq2).Index()] == King; }
        TakeKing(c1, to)
      else c1;
    CaptureStepTrans(b, c1, c2, to);
    c2
  }

  /** `Board.capture(sq0, sq2)`, with `to` as `sq0`. The piece values `p0`,
      `p2` and `between` are read once on entry and used after the board
      has changed, as in the source. */
  function CaptureAt(b: Board, to: Square, sq2: Square): (r: Board)
    ensures CaptureStep(b, r, to)
    ensures SurroundFires(b) ==> r.winner == Some(Black)
    ensures SurroundFires(b) && AtMostOneKing(b.grid) ==> NoKing(r.grid)
    ensures StaleFires(b, to, sq2) ==> Get(r, Between(to, sq2)) == Empty
    ensures Get(b, THRONE) == Empty && Get(b, Between(THRONE, sq2)) == Opp(b.turn) ==>
              Get(r, Between(THRONE, sq2)) == Empty
    ensures Get(b, THRONE) == Empty && CaptureKingFires(b, to, sq2, Get(b, to), Get(b, sq2)) ==>
              r.winner == Some(Black) && (AtMostOneKing(b.grid) ==> NoKing(r.grid))
    ensures && !SurroundFires(b) && !StaleFires(b, to, sq2)
            && (Get(b, THRONE) == Empty ==>
                  Get(b, Between(THRONE, sq2)) != Opp(b.turn) && !CaptureKingFires(b, to, sq2, Get(b, to), Get(b, sq2)))
            ==> r == b
  {
    var p0 := Get(b, to);
    var p2 := Get(b, sq2);
    var b2 := StaleSandwich(b, to, sq2);
    if Get(b2, THRONE) == Empty then
      var b3 := EmptyThroneCapture(b2, to, sq2, p0, p2);
      CaptureStepTrans(b, b2, b3, to);
      b3
    else b2
  }

  /** The first part of `capture`: the KING surrounded on the throne, then
      the ordinary sandwich, judged by the pieces read on entry. */
  function StaleSandwich(b: Board, to: Square, sq2: Square): (r: Board)
    ensures CaptureStep(b, r, to)
    ensures Get(b, to) == Black ==> Get(r, to) == Black
    ensures SurroundFires(b) ==> r.winner == Some(Black)
    ensures SurroundFires(b) && AtMostOneKing(b.grid) ==> NoKing(r.grid)
    ensures StaleFires(b, to, sq2) ==> Get(r, Between(to, sq2)) == Empty
    ensures !SurroundFires(b) && !StaleFires(b, to, sq2) ==> r == b
  {
    var next := Between(to, sq2);
    var b1 := SurroundCapture(b, to);
    var b2 := if StaleFires(b, to, sq2) then Clear(b1, next) else b1;
    CaptureStepTrans(b, b1, b2, to);
    b2
  }

  /** The loop `for (Square sq : list) capture(to, sq)`. */
  function CaptureAll(b: Board, to: Square, sqs: seq<Square>): (r: Board)
    ensures CaptureStep(b, r, to)
    decreases |sqs|
  {
    if sqs == [] then b
    else
      var b1 := CaptureAt(b, to, sqs[0]);
      var b2 := CaptureAll(b1, to, sqs[1..]);
      CaptureStepTrans(b, b1, b2, to);
      b2
  }

  /** One full `for (Square sq : possibleremove(to)) capture(to, sq)`
      loop: `possibleremove` runs once and `capture` is applied to each
      square it returned. */
  function FullPass(b: Board, to: Square): (r: Board)
    ensures CaptureStep(b, r, to)
  {
    var (x, found) := PossibleRemove(b, to);
    var y := CaptureAll(x, to, found);
    CaptureStepTrans(b, x, y, to);
    y
  }

  /** The first, guarded loop of `makeMove`: it runs only when no KING is
      on or beside the throne. */
  function FirstPass(b: Board, to: Square): (r: Board)
    ensures CaptureStep(b, r, to)
  {
    if NoKingNearThrone(b) then FullPass(b, to) else b
  }

  /** The capture part of `makeMove`: the guarded loop, then
      `possibleremove` once more for the `!= null` test (its list is
      discarded but its captures stand), then the second loop. */
  function ResolveCaptures(b: Board, to: Square): (r: Board)
    ensures CaptureStep(b, r, to)
  {
    var b1 := FirstPass(b, to);
    var b2 := PossibleRemove(b1, to).0;
    var b3 := FullPass(b2, to);
    CaptureStepTrans(b, b1, b2, to);
    CaptureStepTrans(b, b2, b3, to);
    b3
  }

  // ---------------------------------------------------------------------
  // Sandwich captures

  /** The mover holds `to` and `s`, and the square between them holds the
      opponent (or has already been emptied). */
  predicate SandwichReady(b: Board, to: Square, s: Square)
  {
    var mid := Between(to, s);
    && Get(b, to) == b.turn && Get(b, s) == b.turn
    && (Get(b, mid) == Opp(b.turn) || Get(b, mid) == Empty)
  }

  /** WHITE is on move, the KING is not on a throne surrounded by BLACK,
      defenders (WHITE or KING) hold `to` and `s`, and the square between
      them holds BLACK (or has already been emptied). */
  predicate DefenderReady(b: Board, to: Square, s: Square)
  {
    var mid := Between(to, s);
    && b.turn == White && !SurroundFires(b)
    && IsDefender(Get(b, to)) && IsDefender(Get(b, s))
    && (Get(b, mid) == Black || Get(b, mid) == Empty)
  }

  predicate Flanked(b: Board, to: Square, s: Square)
  {
    SandwichReady(b, to, s) || DefenderReady(b, to, s)
  }

  /** A flanked square stays flanked through any capture step: the flanking
      pieces belong to the mover and are never taken. */
  lemma FlankedPersists(a: Board, c: Board, to: Square, s: Square)
    requires Flanked(a, to, s) && CaptureStep(a, c, to)
    ensures Flanked(c, to, s)
  {
    var i, j, k := to.Index(), s.Index(), Between(to, s).Index();
    assert c.grid[k] == a.grid[k] || c.grid[k] == Empty;
    if SandwichReady(a, to, s) {
      assert a.grid[i] == a.turn && a.grid[j] == a.turn;
    } else {
      assert KingSafeMove(a, to);
      assert a.grid[i] == White || a.grid[i] == King;
      assert a.grid[j] == White || a.grid[j] == King;
      var t := THRONE.Index();
      assert c.grid[t] == a.grid[t] || c.grid[t] == Empty;
    }
  }

  /** An emptied square stays empty through any capture step. */
  lemma EmptyPersists(a: Board, c: Board, to: Square, x: Square)
    requires Get(a, x) == Empty && CaptureStep(a, c, to)
    ensures Get(c, x) == Empty
  {
  }

  /** Examining target `s` empties the square between `to` and a flanked
      `s`: by the ordinary sandwich test or by the defender test. */
  lemma SandwichAtClears(b: Board, to: Square, s: Square)
    requires Flanked(b, to, s)
    ensures Get(SandwichAt(b, to, s).0, Between(to, s)) == Empty
  {
  }

  lemma {:induction false} SandwichesClear(b: Board, to: Square, targets: seq<Square>, s: Square)
    requires s in targets && Flanked(b, to, s)
    ensures Get(Sandwiches(b, to, targets).0, Between(to, s)) == Empty
    decreases |targets|
  {
    var (b1, add) := SandwichAt(b, to, targets[0]);
    var (b2, rest) := Sandwiches(b1, to, targets[1..]);
    assert Sandwiches(b, to, targets).0 == b2;
    if targets[0] == s {
      SandwichAtClears(b, to, s);
      EmptyPersists(b1, b2, to, Between(to, s));
    } else {
      FlankedPersists(b, b1, to, s);
      SandwichesClear(b1, to, targets[1..], s);
    }
  }

  lemma PossibleRemoveClears(b: Board, to: Square, s: Square)
    requires s in Targets(to) && Flanked(b, to, s)
    ensures Get(PossibleRemove(b, to).0, Between(to, s)) == Empty
  {
    var b1 := ThroneRule(b, to);
    var b2 := ThroneEmptyRule(b1, to);
    FlankedPersists(b, b1, to, s);
    FlankedPersists(b1, b2, to, s);
    SandwichesClear(b2, to, Targets(to), s);
  }

  /** The capture rules empty any flanked square two rook steps from `to`:
      after a move to `to`, a piece of the side not on move standing between
      `to` and a piece of the mover at distance two is removed, and so is a
      BLACK piece between two defenders when WHITE moves and the KING is off
      the throne. */
  lemma SandwichCapture(b: Board, to: Square, d: Dir)
    requires RookMove(to, d, 2).Some?
    requires Flanked(b, to, RookMove(to, d, 2).value)
    ensures Get(ResolveCaptures(b, to), Between(to, RookMove(to, d, 2).value)) == Empty
  {
    var s := RookMove(to, d, 2).value;
    BetweenIsMidpoint(to, d);
    var b1 := FirstPass(b, to);
    var b2 := PossibleRemove(b1, to).0;
    FlankedPersists(b, b1, to, s);
    PossibleRemoveClears(b1, to, s);
    EmptyPersists(b2, FullPass(b2, to), to, Between(to, s));
  }

  /** No flank case applies while all four throne neighbours are BLACK. */
  lemma {:induction false} SurroundedBlocksFlanks(b: Board, to: Square, dirs: seq<Dir>)
    requires Surrounded(b)
    ensures ThroneFlanks(b, to, dirs) == b
    decreases |dirs|
  {
    if dirs != [] {
      assert ThroneFlank(b, to, dirs[0]) == b;
      SurroundedBlocksFlanks(b, to, dirs[1..]);
    }
  }

  /** With the KING on the throne and four BLACK neighbours,
      `possibleremove` removes the KING and declares BLACK the winner. */
  lemma SurroundedKingTaken(b: Board, to: Square)
    requires Get(b, THRONE) == King && Surrounded(b) && AtMostOneKing(b.grid)
    ensures NoKing(PossibleRemove(b, to).0.grid)
    ensures PossibleRemove(b, to).0.winner == Some(Black)
  {
    SurroundedBlocksFlanks(b, to, [NORTH, SOUTH, EAST, WEST]);
    var t := ThroneRule(b, to);
    assert t == SurroundCapture(b, to);
    var e := ThroneEmptyRule(t, to);
    var p := PossibleRemove(b, to).0;
    CaptureStepTrans(t, e, p, to);
  }

  /** The KING on the throne with four BLACK neighbours is removed and
      BLACK wins, whatever the move was. */
  lemma ThroneSurroundCapture(b: Board, to: Square)
    requires Get(b, THRONE) == King && Surrounded(b) && AtMostOneKing(b.grid)
    ensures NoKing(ResolveCaptures(b, to).grid)
    ensures ResolveCaptures(b, to).winner == Some(Black)
  {
    assert FirstPass(b, to) == b;
    SurroundedKingTaken(b, to);
  }

  /** The KING on the throne flanks as a defender: WHITE moving to e7 takes
      a BLACK piece on e6, between it and the KING, unless the KING is
      surrounded. */
  lemma KingOnThroneFlanks(b: Board)
    requires b.turn == White && Get(b, THRONE) == King && !Surrounded(b)
    requires Get(b, Sq(4, 6)) == White && Get(b, NTHRONE) == Black
    ensures Get(ResolveCaptures(b, Sq(4, 6)), NTHRONE) == Empty
  {
    assert RookMove(Sq(4, 6), SOUTH, 2) == Some(THRONE);
    assert Between(Sq(4, 6), THRONE) == NTHRONE;
    assert DefenderReady(b, Sq(4, 6), THRONE);
    SandwichCapture(b, Sq(4, 6), SOUTH);
  }

  /** With the throne empty, the square midway between the throne and `to`
      is taken when it holds the side not on move, wherever `to` is: no
      piece of the mover need stand beyond it, and it need not be next to
      `to`. */
  lemma ThroneMidpointCapture(b: Board, to: Square)
    requires Get(b, THRONE) == Empty && Get(b, Between(THRONE, to)) == Opp(b.turn)
    ensures Get(ResolveCaptures(b, to), Between(THRONE, to)) == Empty
  {
    var m := Between(THRONE, to);
    var b1 := FirstPass(b, to);
    assert Get(b1, m) == Opp(b.turn) || Get(b1, m) == Empty;
    var t := ThroneRule(b1, to);
    var e := ThroneEmptyRule(t, to);
    assert Get(e, m) == Empty;
    var b2 := PossibleRemove(b1, to).0;
    EmptyPersists(e, b2, to, m);
    EmptyPersists(b2, FullPass(b2, to), to, m);
  }

  /** WHITE moving to h1 with the throne empty takes a BLACK piece on f3,
      two files and two ranks away, with nothing beyond it. */
  lemma FarMidpointExample(b: Board)
    requires b.turn == White && Get(b, THRONE) == Empty && Get(b, Sq(5, 2)) == Black
    ensures Get(ResolveCaptures(b, Sq(7, 0)), Sq(5, 2)) == Empty
  {
    ThroneMidpointCapture(b, Sq(7, 0));
  }

  /** BLACK closing a trap around the KING beside the empty throne takes
      the KING and wins, whatever the move was. */
  lemma ThroneTrapCapture(b: Board, to: Square, d: Dir)
    requires b.turn == Black && Get(b, THRONE) == Empty && AtMostOneKing(b.grid)
    requires KingTrapFires(b, d)
    ensures NoKing(ResolveCaptures(b, to).grid)
    ensures ResolveCaptures(b, to).winner == Some(Black)
  {
    var n := ThroneNeighbour(d);
    assert b.grid[n.Index()] == King;
    assert FirstPass(b, to) == b;
    var t := ThroneRule(b, to);
    var e := ThroneEmptyRule(t, to);
    assert Get(e, n) == Empty && e.winner == Some(Black);
    assert NoKing(e.grid);
    var b2 := PossibleRemove(b, to).0;
    assert CaptureStep(e, b2, to);
  }
}
