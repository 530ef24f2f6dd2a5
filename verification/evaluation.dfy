/** The AI's position evaluation: the score constants, `maxDepth`,
    `distance`, `checkSquareBlack` and `staticScore`. Scores are from
    WHITE's point of view: positive favours WHITE. */
module Evaluation {
  import opened Wrappers
  import opened Geometry
  import opened Pieces
  import opened Boards
  import opened MoveGen

  /** `Integer.MAX_VALUE`. */
  const INFTY: int := 0x7FFF_FFFF
  /** The magnitude of a won position. */
  const WINNING_VALUE: int := INFTY - 20
  /** The magnitude of a position one step from a win; below
      `WINNING_VALUE` so that immediate wins are preferred. */
  const WILL_WIN_VALUE: int := INFTY - 40

  lemma ConstantsOrdered()
    ensures 0 < WILL_WIN_VALUE < WINNING_VALUE < INFTY
    ensures INFTY == 0x8000_0000 - 1
  {
  }

  /** `AI.maxDepth`: the search deepens as the game goes on. */
  function MaxDepth(b: Board): (r: nat)
    ensures r in {2, 5, 7, 10}
  {
    var x := MoveCount(b);
    if x > 15 then 10
    else if x > 10 then 7
    else if x > 5 then 5
    else 2
  }

  /** The depth schedule by move count, and its monotonicity. */
  lemma MaxDepthSchedule(b: Board, c: Board)
    ensures MoveCount(b) <= 5 ==> MaxDepth(b) == 2
    ensures 5 < MoveCount(b) <= 10 ==> MaxDepth(b) == 5
    ensures 10 < MoveCount(b) <= 15 ==> MaxDepth(b) == 7
    ensures 15 < MoveCount(b) ==> MaxDepth(b) == 10
    ensures MoveCount(b) <= MoveCount(c) ==> MaxDepth(b) <= MaxDepth(c)
  {
  }

  // ---------------------------------------------------------------------
  // Distances

  /** Searching upwards from `k` for the integer square root of `n`. */
  function ISqrtFrom(n: nat, k: nat): (r: nat)
    requires k * k <= n
    ensures r * r <= n < (r + 1) * (r + 1)
    decreases n - k
  {
    if (k + 1) * (k + 1) > n then k else ISqrtFrom(n, k + 1)
  }

  /** The floor of the square root of `n`: the largest `r` with
      `r * r <= n`. */
  function ISqrt(n: nat): (r: nat)
    ensures r * r <= n < (r + 1) * (r + 1)
    ensures r <= n
    ensures r == 0 <==> n == 0
  {
    var r := ISqrtFrom(n, 0);
    RootAtMostSquare(r);
    r
  }

  lemma RootAtMostSquare(r: nat)
    ensures r <= r * r
  {
    if r > 0 {
      assert r * r == r * (r - 1) + r;
    }
  }

  lemma SquarePositive(x: int)
    requires x != 0
    ensures x * x > 0
  {
    if x < 0 {
      assert x * x == (-x) * (-x);
    }
  }

  /** The squared distance between (`kRow`, `kCol`) and (`row`, `col`). */
  function DistanceSquared(kRow: Coord, kCol: Coord, row: Coord, col: Coord): (r: nat)
    ensures r == 0 <==> kRow == row && kCol == col
    ensures r <= 128
  {
    var x, y := kRow - row, kCol - col;
    SumOfSquaresZero(x, y);
    SquareOnBoard(x);
    SquareOnBoard(y);
    x * x + y * y
  }

  lemma SumOfSquaresZero(x: int, y: int)
    ensures x * x + y * y >= 0
    ensures x * x + y * y == 0 <==> x == 0 && y == 0
  {
    assert x * x >= 0 && y * y >= 0;
    if x != 0 {
      SquarePositive(x);
    }
    if y != 0 {
      SquarePositive(y);
    }
  }

  /** A difference of two coordinates squares to at most 64. */
  lemma SquareOnBoard(x: int)
    requires -SIZE < x < SIZE
    ensures x * x <= 64
  {
    if x >= 0 {
      assert x * x <= 8 * x;
    } else {
      assert x * x == (-x) * (-x);
      assert (-x) * (-x) <= 8 * (-x);
    }
  }

  /** `AI.distance`: the Euclidean distance, truncated to an integer. The
      source goes through `Math.sqrt` on doubles; for the small integers
      that occur here (at most 128) the truncated double square root is
      the integer square root. */
  function EuclidDistance(kRow: Coord, kCol: Coord, row: Coord, col: Coord): (r: nat)
    ensures r * r <= (kRow - row) * (kRow - row) + (kCol - col) * (kCol - col) < (r + 1) * (r + 1)
    ensures r == 0 <==> kRow == row && kCol == col
    ensures r <= 128
  {
    ISqrt(DistanceSquared(kRow, kCol, row, col))
  }

  /** The smallest distance from `k` to a corner, as `staticScore`'s loop
      computes it from `INFTY` downwards. */
  function CornerDistance(k: Square): (r: nat)
    ensures r == 0 <==> IsCorner(k)
    ensures r <= 128
    ensures r <= EuclidDistance(k.row, k.col, 0, 0) && r <= EuclidDistance(k.row, k.col, 0, 8)
    ensures r <= EuclidDistance(k.row, k.col, 8, 0) && r <= EuclidDistance(k.row, k.col, 8, 8)
    ensures r == EuclidDistance(k.row, k.col, 0, 0) || r == EuclidDistance(k.row, k.col, 0, 8)
         || r == EuclidDistance(k.row, k.col, 8, 0) || r == EuclidDistance(k.row, k.col, 8, 8)
  {
    var dists := [EuclidDistance(k.row, k.col, 0, 0), EuclidDistance(k.row, k.col, 0, 8),
                  EuclidDistance(k.row, k.col, 8, 0), EuclidDistance(k.row, k.col, 8, 8)];
    MinOfFour(dists);
    MinFrom(dists, 0, INFTY)
  }

  /** The loop over four distances from `INFTY` finds the least of them. */
  lemma MinOfFour(xs: seq<nat>)
    requires |xs| == 4 && forall i | 0 <= i < 4 :: xs[i] <= INFTY
    ensures var m := MinFrom(xs, 0, INFTY);
      && m <= xs[0] && m <= xs[1] && m <= xs[2] && m <= xs[3]
      && (m == xs[0] || m == xs[1] || m == xs[2] || m == xs[3])
  {
  }

  /** The loop `if (cornerDists[i] < kingCornerDist) ...` from index `i`
      with running minimum `m`. */
  function MinFrom(xs: seq<nat>, i: nat, m: int): (r: int)
    requires i <= |xs|
    ensures r <= m && forall j | i <= j < |xs| :: r <= xs[j]
    ensures r == m || exists j | i <= j < |xs| :: r == xs[j]
    decreases |xs| - i
  {
    if i == |xs| then m
    else MinFrom(xs, i + 1, if xs[i] < m then xs[i] else m)
  }

  // ---------------------------------------------------------------------
  // The KING's surroundings

  /** `AI.checkSquareBlack`: 1 for an existing square holding BLACK, else 0. */
  function CheckSquareBlack(pos: Option<Square>, b: Board): (r: nat)
    ensures r == 1 <==> pos.Some? && Get(b, pos.value) == Black
    ensures r <= 1
  {
    if pos.Some? && Get(b, pos.value) == Black then 1 else 0
  }

  /** One step from `s` in `d`, then one step in `e` (absent when either
      step leaves the board). */
  function TwoSteps(s: Square, d: Dir, e: Dir): Option<Square>
  {
    match RookMove(s, d, 1)
    case None => None
    case Some(t) => RookMove(t, e, 1)
  }

  /** The eight squares around `k`, in `staticScore`'s order: north, east,
      south, west, north-west, north-east, south-west, south-east. */
  function Neighbourhood(k: Square): (r: seq<Option<Square>>)
    ensures |r| == 8
  {
    [RookMove(k, NORTH, 1), RookMove(k, EAST, 1), RookMove(k, SOUTH, 1), RookMove(k, WEST, 1),
     TwoSteps(k, NORTH, WEST), TwoSteps(k, NORTH, EAST), TwoSteps(k, SOUTH, WEST), TwoSteps(k, SOUTH, EAST)]
  }

  /** The positions in `squares` that `checkSquareBlack` scores 1. */
  ghost function BlackPositions(b: Board, squares: seq<Option<Square>>): set<int>
  {
    set i | 0 <= i < |squares| && CheckSquareBlack(squares[i], b) == 1
  }

  /** The sum of `checkSquareBlack` over `squares`, accumulated from the
      first square to the last as `staticScore`'s loop does: the number of
      squares that exist and hold BLACK. */
  function CountBlack(b: Board, squares: seq<Option<Square>>): (r: nat)
    ensures r == |BlackPositions(b, squares)|
    ensures r <= |squares|
    ensures r == 0 <==> forall i | 0 <= i < |squares| :: CheckSquareBlack(squares[i], b) == 0
    ensures r == |squares| <==> forall i | 0 <= i < |squares| :: CheckSquareBlack(squares[i], b) == 1
  {
    if squares == [] then 0
    else
      var n := |squares| - 1;
      var before := CountBlack(b, squares[..n]);
      BlackPositionsSnoc(b, squares);
      before + CheckSquareBlack(squares[n], b)
  }

  /** Extending the squares by one adds its position exactly when it is
      BLACK. */
  lemma BlackPositionsSnoc(b: Board, squares: seq<Option<Square>>)
    requires squares != []
    ensures var n := |squares| - 1;
      BlackPositions(b, squares)
      == BlackPositions(b, squares[..n]) + (if CheckSquareBlack(squares[n], b) == 1 then {n} else {})
    ensures |squares| - 1 !in BlackPositions(b, squares[..|squares| - 1])
  {
  }

  /** The `kingNeighours` sum of `staticScore`. */
  function KingNeighbours(b: Board, k: Square): (r: nat)
    ensures r == |BlackPositions(b, Neighbourhood(k))|
    ensures r <= 8
    ensures r == 0 <==> forall i | 0 <= i < 8 :: CheckSquareBlack(Neighbourhood(k)[i], b) == 0
    ensures r == 8 <==> forall i | 0 <= i < 8 ::
              Neighbourhood(k)[i].Some? && Get(b, Neighbourhood(k)[i].value) == Black
  {
    CountBlack(b, Neighbourhood(k))
  }

  // ---------------------------------------------------------------------
  // staticScore

  /** One step from `k` in `d` is an edge square. */
  predicate EdgeStep(k: Square, d: Dir)
  {
    RookMove(k, d, 1).Some? && IsEdge(RookMove(k, d, 1).value)
  }

  /** The KING is one step from an edge square. */
  predicate NearEdge(k: Square)
  {
    EdgeStep(k, NORTH) || EdgeStep(k, EAST) || EdgeStep(k, SOUTH) || EdgeStep(k, WEST)
  }

  /** A square away from the edge zone has all eight neighbours. */
  lemma InteriorNeighbourhood(k: Square)
    requires !NearEdge(k)
    ensures 2 <= k.col <= 6 && 2 <= k.row <= 6
    ensures forall i | 0 <= i < 8 :: Neighbourhood(k)[i].Some?
  {
  }

  /** The boards `staticScore` can evaluate: a winner is set, or there is
      a KING to look at. */
  predicate ScoreDefined(b: Board)
  {
    b.winner.Some? || !NoKing(b.grid)
  }

  /** The heuristic part of `staticScore`: three points per unit of
      closeness to a corner plus WHITE's mobility advantage, minus three
      points per BLACK piece around the KING plus BLACK's mobility
      advantage. */
  function Heuristic(b: Board, k: Square): int
  {
    var kingCornerDist := CornerDistance(k);
    var whiteLegal := |LegalMoves(b, White)|;
    var blackLegal := |LegalMoves(b, Black)|;
    var whiteScore := (9 - kingCornerDist) * 3 + (whiteLegal - blackLegal);
    var blackScore := (KingNeighbours(b, k) * 3) + (blackLegal - whiteLegal);
    whiteScore - blackScore
  }

  /** `AI.staticScore` for the player `me`, with the null test for a KING
      on the top row that the source lacks (see `StaticScoreAsWritten`). */
  function StaticScore(b: Board, me: Piece): (r: int)
    requires ScoreDefined(b)
    ensures b.winner == Some(White) ==> r == WINNING_VALUE
    ensures b.winner == Some(Black) ==> r == -WINNING_VALUE
    ensures -WINNING_VALUE <= r <= WINNING_VALUE
  {
    if b.winner == Some(White) then WINNING_VALUE
    else if b.winner == Some(Black) then -WINNING_VALUE
    else
      var k := KingPosition(b.grid).value;
      if NearEdge(k) then WILL_WIN_VALUE
      else if b.repeated then (if me == White || me == King then -WINNING_VALUE else WINNING_VALUE)
      else
        HeuristicBounded(b, k);
        Heuristic(b, k)
  }

  lemma HeuristicBounded(b: Board, k: Square)
    ensures -5000 <= Heuristic(b, k) <= 5000
  {
  }

  /** The cases of `staticScore` once nobody has won: a KING next to an
      edge square is a near-win for WHITE; a repeated position is lost for
      the player `me`; otherwise the heuristic applies, and its magnitude
      stays far below the win values. */
  lemma StaticScoreCases(b: Board, me: Piece)
    requires b.winner.None? && !NoKing(b.grid)
    ensures var k := KingPosition(b.grid).value;
      && (NearEdge(k) ==> StaticScore(b, me) == WILL_WIN_VALUE)
      && (!NearEdge(k) && b.repeated ==>
            StaticScore(b, me) == if me == White || me == King then -WINNING_VALUE else WINNING_VALUE)
      && (!NearEdge(k) && !b.repeated ==>
            StaticScore(b, me) == Heuristic(b, k) && -WILL_WIN_VALUE < StaticScore(b, me) < WILL_WIN_VALUE)
  {
    var k := KingPosition(b.grid).value;
    if !NearEdge(k) && !b.repeated {
      HeuristicBounded(b, k);
      assert StaticScore(b, me) == Heuristic(b, k);
    }
  }

  /** Only the side on move has legal moves, so the mobility terms reduce
      to twice the mover's move count, counted for WHITE when WHITE is on
      move and against WHITE otherwise. */
  lemma HeuristicByMover(b: Board, k: Square)
    ensures b.turn == White ==>
      Heuristic(b, k) == 27 - 3 * CornerDistance(k) - 3 * KingNeighbours(b, k) + 2 * |LegalMoves(b, White)|
    ensures b.turn == Black ==>
      Heuristic(b, k) == 27 - 3 * CornerDistance(k) - 3 * KingNeighbours(b, k) - 2 * |LegalMoves(b, Black)|
  {
    if b.turn == White {
      OffTurnHasNoMoves(b, Black);
    } else {
      OffTurnHasNoMoves(b, White);
    }
  }

  /** `AI.staticScore` as written: `kingPos.rookMove(0, 1).isEdge()` is
      evaluated first, so a KING on the top row (where that square is
      `null`) raises a `NullPointerException`, modelled as `None`; so does
      a board with no KING and no winner. */
  function StaticScoreAsWritten(b: Board, me: Piece): (r: Option<int>)
    ensures r.None? <==> b.winner.None? && (NoKing(b.grid) || KingPosition(b.grid).value.row == 8)
    ensures r.Some? ==> ScoreDefined(b) && r.value == StaticScore(b, me)
  {
    if b.winner.Some? then Some(StaticScore(b, me))
    else if NoKing(b.grid) then None
    else if RookMove(KingPosition(b.grid).value, NORTH, 1).None? then None
    else Some(StaticScore(b, me))
  }

  /** A board whose only piece is the KING on e9. */
  function KingOnTopRow(): (r: Board)
  {
    Board(seq(81, _ => Empty)[76 := King], White, None, false, {}, [], None, 0)
  }

  /** The discrepancy: with the KING on e9 and no winner, the source fails,
      while the KING is one step from the edge squares d9 and f9 and the
      intended score is `WILL_WIN_VALUE`. */
  lemma StaticScoreTopRowExample()
    ensures StaticScoreAsWritten(KingOnTopRow(), White).None?
    ensures ScoreDefined(KingOnTopRow()) && StaticScore(KingOnTopRow(), White) == WILL_WIN_VALUE
  {
    var b := KingOnTopRow();
    assert b.grid[76] == King;
    var k := KingPosition(b.grid).value;
    assert k.Index() == 76;
    IndexInjective(k, Sq(4, 8));
    assert EdgeStep(k, EAST) by {
      assert RookMove(k, EAST, 1) == Some(Sq(5, 8));
    }
  }
}
