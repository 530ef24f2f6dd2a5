/** The Tablut board state (class `Board`): the grid, the side to move, the
    winner, the repetition flag and set of seen layouts, the undo history,
    and the queries that only read the grid. */
module Boards {
  import opened Wrappers
  import opened Geometry
  import opened Pieces

  /** The 9x9 grid, indexed by `Square.Index()`. */
  type Grid = g: seq<Piece> | |g| == 81 witness seq(81, _ => Empty)

  /** A move from one square to another (class `Move`, not part of this model). */
  datatype Move = Move(from: Square, to: Square)

  /** What the capture stacks remember about one overwritten square. */
  datatype Placement = Placement(square: Square, piece: Piece)

  /** The state of a game.
      - `moves` is the undo stack of moves; `moveCount()` is its length.
      - `captured` is the `capture` flag together with the top of the piece
        and square stacks: `Some` exactly when the last move captured, and
        then it holds the last square cleared and the piece it held. The
        deeper stack entries are never read back, so they are not kept.
      - `seen` holds the layouts (the encoding without its turn character)
        recorded by `checkRepeated`.
      - `limit` is the stored move limit. */
  datatype Board = Board(
    grid: Grid,
    turn: Side,
    winner: Option<Side>,
    repeated: bool,
    seen: set<seq<char>>,
    moves: seq<Move>,
    captured: Option<Placement>,
    limit: int)

  function At(g: Grid, s: Square): Piece
  {
    g[s.Index()]
  }

  /** `Board.get(Square)` and `Board.get(int, int)`. */
  function Get(b: Board, s: Square): Piece
  {
    At(b.grid, s)
  }

  /** `Board.put(Piece, Square)`. */
  function Put(b: Board, p: Piece, s: Square): (r: Board)
    ensures Get(r, s) == p
    ensures forall t :: t != s ==> Get(r, t) == Get(b, t)
  {
    IndexInjectiveAll(s);
    b.(grid := b.grid[s.Index() := p])
  }

  lemma IndexInjectiveAll(s: Square)
    ensures forall t :: t != s ==> t.Index() != s.Index()
  {
    forall t | t != s
      ensures t.Index() != s.Index()
    {
      IndexInjective(s, t);
    }
  }

  function MoveCount(b: Board): nat
  {
    |b.moves|
  }

  // ---------------------------------------------------------------------
  // Kings

  predicate NoKing(g: Grid)
  {
    forall i | 0 <= i < 81 :: g[i] != King
  }

  predicate AtMostOneKing(g: Grid)
  {
    forall i, j | 0 <= i < 81 && 0 <= j < 81 && g[i] == King && g[j] == King :: i == j
  }

  /** The highest index below `n` holding the KING. */
  function LastKingBelow(g: Grid, n: nat): (r: Option<nat>)
    requires n <= 81
    ensures r.Some? ==> r.value < n && g[r.value] == King
    ensures r.Some? ==> forall j | r.value < j < n :: g[j] != King
    ensures r.None? ==> forall j | 0 <= j < n :: g[j] != King
  {
    if n == 0 then None
    else if g[n - 1] == King then Some(n - 1)
    else LastKingBelow(g, n - 1)
  }

  /** `Board.kingPosition`: the loop scans rows, and columns within a row,
      upwards and keeps the last KING it meets, so the result is the KING of
      highest index; `None` (Java `null`) when there is no KING. */
  function KingPosition(g: Grid): (r: Option<Square>)
    ensures r.Some? ==> At(g, r.value) == King
    ensures r.Some? ==> forall j | r.value.Index() < j < 81 :: g[j] != King
    ensures r.None? <==> NoKing(g)
  {
    match LastKingBelow(g, 81)
    case None => None
    case Some(i) => Some(SquareAt(i))
  }

  /** With a single KING, `kingPosition` finds exactly that square. */
  lemma UniqueKingPosition(g: Grid, s: Square)
    requires AtMostOneKing(g)
    ensures At(g, s) == King <==> KingPosition(g) == Some(s)
  {
    if At(g, s) == King {
      var k := KingPosition(g);
      assert k.Some?;
      IndexInjective(k.value, s);
    }
  }

  // ---------------------------------------------------------------------
  // Initial position and copies

  predicate InitialAttacker(s: Square)
  {
    s in {
      Sq(0, 3), Sq(0, 4), Sq(0, 5), Sq(1, 4),
      Sq(8, 3), Sq(8, 4), Sq(8, 5), Sq(7, 4),
      Sq(3, 0), Sq(4, 0), Sq(5, 0), Sq(4, 1),
      Sq(3, 8), Sq(4, 8), Sq(5, 8), Sq(4, 7)}
  }

  predicate InitialDefender(s: Square)
  {
    s in {
      NTHRONE, ETHRONE, STHRONE, WTHRONE,
      Sq(4, 6), Sq(4, 2), Sq(2, 4), Sq(6, 4)}
  }

  predicate InitialEmpty(s: Square)
  {
    s in {
      Sq(0, 0), Sq(0, 1), Sq(0, 2), Sq(0, 6),
      Sq(0, 7), Sq(0, 8), Sq(1, 0), Sq(1, 1),
      Sq(1, 2), Sq(1, 3), Sq(1, 5), Sq(1, 6),
      Sq(1, 7), Sq(1, 8), Sq(2, 0), Sq(2, 1),
      Sq(2, 2), Sq(2, 3), Sq(2, 5), Sq(2, 6),
      Sq(2, 7), Sq(2, 8), Sq(3, 1), Sq(3, 2),
      Sq(3, 3), Sq(3, 5), Sq(3, 6), Sq(3, 7),
      Sq(5, 1), Sq(5, 2), Sq(5, 3), Sq(5, 5),
      Sq(5, 6), Sq(5, 7), Sq(6, 0), Sq(6, 1),
      Sq(6, 2), Sq(6, 3), Sq(6, 5), Sq(6, 6),
      Sq(6, 7), Sq(6, 8), Sq(7, 0), Sq(7, 1),
      Sq(7, 2), Sq(7, 3), Sq(7, 5), Sq(7, 6),
      Sq(7, 7), Sq(7, 8), Sq(8, 0), Sq(8, 1),
      Sq(8, 2), Sq(8, 6), Sq(8, 7), Sq(8, 8)}
  }

  /** The piece `init` leaves on `s`: the KING is written on the throne
      first and the three lists are applied after it, each later write
      winning. The lists are disjoint, miss the throne and together with it
      cover the board (`InitialListsCover`), so only membership matters. */
  function InitialPiece(s: Square): Piece
  {
    if InitialEmpty(s) then Empty
    else if InitialDefender(s) then White
    else if InitialAttacker(s) then Black
    else King
  }

  /** `Board.init` (and the constructor `Board()`, where `_lim` is 0). */
  function Init(): (r: Board)
    ensures Get(r, THRONE) == King
    ensures AtMostOneKing(r.grid)
    ensures r.turn == Black && r.winner.None? && !r.repeated
    ensures MoveCount(r) == 0 && r.seen == {} && r.captured.None?
    ensures r.limit == 0
  {
    var g := seq(81, i requires 0 <= i < 81 => InitialPiece(SquareAt(i)));
    InitialKingIsOnThrone(g);
    Board(g, Black, None, false, {}, [], None, 0)
  }

  lemma InitialKingIsOnThrone(g: Grid)
    requires forall i | 0 <= i < 81 :: g[i] == InitialPiece(SquareAt(i))
    ensures At(g, THRONE) == King
    ensures AtMostOneKing(g)
  {
    assert !InitialEmpty(THRONE) && !InitialDefender(THRONE) && !InitialAttacker(THRONE);
    assert g[THRONE.Index()] == InitialPiece(SquareAt(THRONE.Index()));
    forall i | 0 <= i < 81 && g[i] == King
      ensures i == THRONE.Index()
    {
      var s := SquareAt(i);
      if s != THRONE {
        assert InitialEmpty(s) || InitialDefender(s) || InitialAttacker(s) by {
          InitialListsCover(s);
        }
      }
    }
  }

  /** The piece on `s` in the initial position is the one `init` writes
      there. */
  lemma InitialAt(s: Square)
    ensures Get(Init(), s) == InitialPiece(s)
  {
    var i := s.Index();
    var t := SquareAt(i);
    IndexInjective(t, s);
    assert t == s;
    assert Init().grid[i] == InitialPiece(t);
  }

  /** Samples of the initial position: a defender on d5, an attacker on
      f9, the KING on the throne and an empty d3 (UnitTest's `checkGet`);
      the KING's file is blocked by its own defenders. */
  lemma InitialSamples()
    ensures Get(Init(), Sq(3, 4)) == White && Get(Init(), Sq(5, 8)) == Black
    ensures Get(Init(), Sq(4, 4)) == King && Get(Init(), Sq(3, 2)) == Empty
    ensures !IsUnblockedMove(Init().grid, Sq(4, 4), Sq(4, 8))
  {
    assert InitialPiece(Sq(3, 4)) == White by {
      assert !InitialEmpty(Sq(3, 4)) && InitialDefender(Sq(3, 4));
    }
    assert InitialPiece(Sq(5, 8)) == Black by {
      assert !InitialEmpty(Sq(5, 8)) && !InitialDefender(Sq(5, 8)) && InitialAttacker(Sq(5, 8));
    }
    assert InitialPiece(NTHRONE) == White by {
      assert !InitialEmpty(NTHRONE) && InitialDefender(NTHRONE);
    }
    InitialAt(Sq(3, 4));
    InitialAt(Sq(5, 8));
    InitialAt(Sq(3, 2));
    InitialAt(NTHRONE);
    ThroneExitBlocked(Init().grid);
  }

  /** A WHITE piece north of the throne blocks the KING's way north. */
  lemma ThroneExitBlocked(g: Grid)
    requires At(g, NTHRONE) == White
    ensures !IsUnblockedMove(g, THRONE, Sq(4, 8))
  {
    assert StrictlyBetween(THRONE, NTHRONE, Sq(4, 8));
  }

  /** Every square other than the throne is named by one of the lists. */
  lemma InitialListsCover(s: Square)
    ensures s == THRONE || InitialEmpty(s) || InitialDefender(s) || InitialAttacker(s)
  {
  }

  /** `Board.copy`: the grid, the side to move and the limit are carried
      over; move count, winner, repetition flag, capture flag and the set of
      seen layouts start afresh. The copy's undo history starts empty: the
      Java copy shares the original's stacks, which is not modelled. */
  function Copy(b: Board): (r: Board)
    ensures r.grid == b.grid && r.turn == b.turn && r.limit == b.limit
    ensures MoveCount(r) == 0 && r.winner.None? && !r.repeated
    ensures r.seen == {} && r.captured.None?
  {
    Board(b.grid, b.turn, None, false, {}, [], None, b.limit)
  }

  // ---------------------------------------------------------------------
  // Position encoding

  /** The encoding of the pieces alone, in index order: `encodedBoard()`
      without its first (turn) character. */
  function Layout(g: Grid): (r: seq<char>)
    ensures |r| == 81
    ensures forall i | 0 <= i < 81 :: r[i] == PieceChar(g[i])
  {
    seq(81, i requires 0 <= i < 81 => PieceChar(g[i]))
  }

  /** `Board.encodedBoard`: the turn character followed by one character
      per square. */
  function EncodedBoard(b: Board): (r: seq<char>)
    ensures |r| == 82
    ensures r[0] == PieceChar(b.turn)
    ensures r[1..] == Layout(b.grid)
  {
    [PieceChar(b.turn)] + Layout(b.grid)
  }

  /** The layout determines the grid, so repetition detection compares
      exactly the piece placement and nothing else. */
  lemma LayoutDeterminesGrid(g1: Grid, g2: Grid)
    ensures Layout(g1) == Layout(g2) <==> g1 == g2
  {
    if Layout(g1) == Layout(g2) {
      forall i | 0 <= i < 81
        ensures g1[i] == g2[i]
      {
        assert Layout(g1)[i] == Layout(g2)[i];
        PieceCharInjective(g1[i], g2[i]);
      }
    }
  }

  /** Two boards with the same grid have the same encoding exactly when the
      same side is on move. */
  lemma EncodingIgnoresHistory(b1: Board, b2: Board)
    requires b1.grid == b2.grid
    ensures EncodedBoard(b1) == EncodedBoard(b2) <==> b1.turn == b2.turn
  {
    if EncodedBoard(b1) == EncodedBoard(b2) {
      assert EncodedBoard(b1)[0] == EncodedBoard(b2)[0];
      PieceCharInjective(b1.turn, b2.turn);
    }
  }

  // ---------------------------------------------------------------------
  // Legality

  /** The loop of `isUnblockedMove`: the squares `k`, `k+1`, ... up to but
      excluding `dist` steps from `from` in direction `dir` are empty. */
  function ClearAlong(g: Grid, from: Square, dir: Dir, k: nat, dist: nat): (r: bool)
    requires 1 <= k <= dist
    requires RookMove(from, dir, dist).Some?
    ensures r <==> forall j | k <= j < dist ::
                     RookMove(from, dir, j).Some? && At(g, RookMove(from, dir, j).value) == Empty
    decreases dist - k
  {
    if k == dist then true
    else At(g, RookMove(from, dir, k).value) == Empty && ClearAlong(g, from, dir, k + 1, dist)
  }

  /** `Board.isUnblockedMove`: a rook move whose intermediate squares are
      empty (the destination itself is not examined). */
  function IsUnblockedMove(g: Grid, from: Square, to: Square): (r: bool)
    ensures r <==> IsRookMove(from, to)
                   && forall s :: StrictlyBetween(from, s, to) ==> At(g, s) == Empty
  {
    if !IsRookMove(from, to) then false
    else
      UnblockedMeansClear(g, from, to);
      ClearAlong(g, from, Direction(from, to), 1, Distance(from, to))
  }

  lemma UnblockedMeansClear(g: Grid, from: Square, to: Square)
    requires IsRookMove(from, to)
    ensures ClearAlong(g, from, Direction(from, to), 1, Distance(from, to))
            <==> forall s :: StrictlyBetween(from, s, to) ==> At(g, s) == Empty
  {
    var dir, dist := Direction(from, to), Distance(from, to);
    if ClearAlong(g, from, dir, 1, dist) {
      forall s | StrictlyBetween(from, s, to)
        ensures At(g, s) == Empty
      {
        BetweenIsStep(from, s, to);
      }
    } else {
      var j :| 1 <= j < dist && !(RookMove(from, dir, j).Some? && At(g, RookMove(from, dir, j).value) == Empty);
      StepsAreBetween(from, to, j);
    }
  }

  /** `Board.isLegal(Square)`: the square holds the side to move. */
  predicate IsLegalStart(b: Board, from: Square)
  {
    Get(b, from) == b.turn
  }

  /** `Board.isLegal(Square, Square)`, following the order of its tests. */
  function IsLegal(b: Board, from: Square, to: Square): (r: bool)
    ensures r <==>
      && IsRookMove(from, to)
      && (forall s :: StrictlyBetween(from, s, to) ==> Get(b, s) == Empty)
      && Get(b, to) == Empty
      && (to == THRONE ==> Get(b, from) == King)
      && (Get(b, from) == b.turn || (Get(b, from) == King && b.turn == White))
  {
    var here := Get(b, from);
    var there := Get(b, to);
    if to == THRONE && here != King then false
    else if !IsUnblockedMove(b.grid, from, to) then false
    else if there != Empty then false
    else if here == b.turn || (here == King && b.turn == White) then IsUnblockedMove(b.grid, from, to)
    else IsLegalStart(b, from)
  }

  // ---------------------------------------------------------------------
  // Configuration

  /** The exception thrown by `setMoveLimit`. */
  datatype LimitError = LimitAlreadyExceeded

  /** `setMoveLimit`, with the integer overflow of `2 * n` removed (see
      `SetMoveLimitAsWritten`): it fails exactly when `2 * n` does not exceed
      the move count, and otherwise stores `n` and changes nothing else. */
  function SetMoveLimit(b: Board, n: int): (r: Result<Board, LimitError>)
    ensures r.Failure? <==> 2 * n <= MoveCount(b)
    ensures r.Success? ==> r.value.limit == n && r.value == b.(limit := n)
  {
    if 2 * n <= MoveCount(b) then Failure(LimitAlreadyExceeded)
    else Success(b.(limit := n))
  }

  type Int32 = x: int | -0x8000_0000 <= x < 0x8000_0000

  /** Java `int` arithmetic: reduce modulo 2^32 into the signed range. */
  function Wrap32(x: int): (r: Int32)
    ensures -0x8000_0000 <= x < 0x8000_0000 ==> r == x
    ensures (r - x) % 0x1_0000_0000 == 0
  {
    (x + 0x8000_0000) % 0x1_0000_0000 - 0x8000_0000
  }

  /** `setMoveLimit` as written: `2 * n` is computed in 32-bit arithmetic. */
  function SetMoveLimitAsWritten(b: Board, n: Int32): (r: Result<Board, LimitError>)
    ensures r.Failure? <==> Wrap32(2 * n) <= MoveCount(b)
  {
    if Wrap32(2 * n) <= MoveCount(b) then Failure(LimitAlreadyExceeded)
    else Success(b.(limit := n))
  }

  /** For limits below 2^30 the overflow cannot occur and both agree. */
  lemma SetMoveLimitAgreesBelowOverflow(b: Board, n: Int32)
    requires -0x4000_0000 <= n < 0x4000_0000
    ensures SetMoveLimitAsWritten(b, n) == SetMoveLimit(b, n)
  {
  }

  /** The discrepancy: at the start of a game a limit of 2^30 moves is
      rejected, because `2 * n` wraps to a negative number. */
  lemma SetMoveLimitOverflowExample()
    ensures SetMoveLimitAsWritten(Init(), 0x4000_0000).Failure?
    ensures SetMoveLimit(Init(), 0x4000_0000).Success?
  {
  }

  // ---------------------------------------------------------------------
  // Access by square name

  predicate IsColumnName(c: char) { 'a' <= c <= 'i' }
  predicate IsRowName(c: char) { '1' <= c <= '9' }

  /** `Board.put(Piece, char, char)`: column letter, then row digit. */
  function PutByName(b: Board, p: Piece, col: char, row: char): (r: Board)
    requires IsColumnName(col) && IsRowName(row)
    ensures Get(r, Sq(col as int - 'a' as int, row as int - '1' as int)) == p
  {
    Put(b, p, Sq(col as int - 'a' as int, row as int - '1' as int))
  }

  /** `Board.get(char, char)` as written: it calls `get(row - '1', col - 'a')`,
      passing the row where `get(int col, int row)` expects the column. */
  function GetByNameAsWritten(b: Board, col: char, row: char): (r: Piece)
    requires IsColumnName(col) && IsRowName(row)
    ensures r == Get(b, Sq(row as int - '1' as int, col as int - 'a' as int))
  {
    Get(b, Sq(row as int - '1' as int, col as int - 'a' as int))
  }

  /** `Board.get(char, char)` as intended: column letter, then row digit. */
  function GetByName(b: Board, col: char, row: char): (r: Piece)
    requires IsColumnName(col) && IsRowName(row)
  {
    Get(b, Sq(col as int - 'a' as int, row as int - '1' as int))
  }

  /** Reading back a square written by name yields the piece written. */
  lemma GetByNameAfterPut(b: Board, p: Piece, col: char, row: char)
    requires IsColumnName(col) && IsRowName(row)
    ensures GetByName(PutByName(b, p, col, row), col, row) == p
  {
  }

  /** With the transposition, writing WHITE on a2 of the initial board and
      reading a2 back gives EMPTY: the read looks at b1. */
  lemma GetByNameTransposes()
    ensures GetByNameAsWritten(PutByName(Init(), White, 'a', '2'), 'a', '2') == Empty
  {
    var b := PutByName(Init(), White, 'a', '2');
    assert Sq(1, 0) != Sq(0, 1);
    assert Get(Init(), Sq(1, 0)) == InitialPiece(Sq(1, 0));
  }
}
