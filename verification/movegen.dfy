/** Move generation: `pieceLocations`, `legalMoves` and `hasMove`.
    `pieceLocations` returns a hash set in the source; here it is the list
    of squares in index order (row by row, upwards, and left to right
    within a row), which fixes the order in which moves are listed. */
module MoveGen {
  import opened Wrappers
  import opened Geometry
  import opened Pieces
  import opened Boards

  /** The squares of index `i` and above holding exactly `p`. */
  function LocationsFrom(g: Grid, p: Piece, i: nat): (r: seq<Square>)
    requires i <= 81
    ensures forall s :: s in r <==> i <= s.Index() && At(g, s) == p
    ensures |r| <= 81 - i
    ensures forall k | 0 <= k < |r| :: i <= r[k].Index()
    ensures forall k, l | 0 <= k < l < |r| :: r[k].Index() < r[l].Index()
    decreases 81 - i
  {
    if i == 81 then []
    else
      var rest := LocationsFrom(g, p, i + 1);
      var s := SquareAt(i);
      assert forall t: Square :: t.Index() == i ==> t == s by {
        forall t: Square | t.Index() == i
          ensures t == s
        {
          IndexInjective(t, s);
        }
      }
      if g[i] == p then [s] + rest else rest
  }

  /** `Board.pieceLocations`: the squares holding exactly `side`. Asking
      for WHITE does not include the KING. */
  function PieceLocations(g: Grid, side: Piece): (r: seq<Square>)
    requires side != Empty
    ensures forall s :: s in r <==> At(g, s) == side
    ensures |r| <= 81
    ensures forall k, l | 0 <= k < l < |r| :: r[k].Index() < r[l].Index()
  {
    LocationsFrom(g, side, 0)
  }

  /** The first inner loop of `legalMoves`: moves from `s` to columns
      `c`, `c+1`, ... of its own row that are legal. */
  function RowMoves(b: Board, s: Square, c: nat): (r: seq<Move>)
    requires c <= SIZE
    ensures forall m | m in r :: m.from == s && m.to.row == s.row && c <= m.to.col && IsLegal(b, s, m.to)
    ensures |r| <= SIZE - c
    decreases SIZE - c
  {
    if c == SIZE then []
    else
      var t := Sq(c, s.row);
      var rest := RowMoves(b, s, c + 1);
      if IsLegal(b, s, t) then [Move(s, t)] + rest else rest
  }

  /** The second inner loop of `legalMoves`: moves from `s` to rows `r`,
      `r+1`, ... of its own column that are legal. */
  function ColumnMoves(b: Board, s: Square, row: nat): (r: seq<Move>)
    requires row <= SIZE
    ensures forall m | m in r :: m.from == s && m.to.col == s.col && row <= m.to.row && IsLegal(b, s, m.to)
    ensures |r| <= SIZE - row
    decreases SIZE - row
  {
    if row == SIZE then []
    else
      var t := Sq(s.col, row);
      var rest := ColumnMoves(b, s, row + 1);
      if IsLegal(b, s, t) then [Move(s, t)] + rest else rest
  }

  /** Every legal destination along the row of `s`, from column `c` on,
      is listed. */
  lemma {:induction false} RowMovesComplete(b: Board, s: Square, c: nat, t: Square)
    requires c <= t.col && t.row == s.row && IsLegal(b, s, t)
    ensures Move(s, t) in RowMoves(b, s, c)
    decreases SIZE - c
  {
    if t.col != c {
      RowMovesComplete(b, s, c + 1, t);
    } else {
      assert t == Sq(c, s.row);
    }
  }

  /** Every legal destination along the column of `s`, from row `row` on,
      is listed. */
  lemma {:induction false} ColumnMovesComplete(b: Board, s: Square, row: nat, t: Square)
    requires row <= t.row && t.col == s.col && IsLegal(b, s, t)
    ensures Move(s, t) in ColumnMoves(b, s, row)
    decreases SIZE - row
  {
    if t.row != row {
      ColumnMovesComplete(b, s, row + 1, t);
    } else {
      assert t == Sq(s.col, row);
    }
  }

  /** Every legal destination shares a row or a column with the origin. */
  lemma LegalTargetsAligned(b: Board, s: Square)
    ensures forall t | IsLegal(b, s, t) :: t.row == s.row || t.col == s.col
  {
  }

  /** All legal moves from `s`: along its row, then along its column. */
  function MovesFrom(b: Board, s: Square): (r: seq<Move>)
    ensures forall m | m in r :: m.from == s && IsLegal(b, s, m.to)
    ensures forall t | IsLegal(b, s, t) :: Move(s, t) in r
    ensures |r| <= 2 * SIZE
  {
    var rows := RowMoves(b, s, 0);
    var cols := ColumnMoves(b, s, 0);
    MovesFromCovers(b, s, rows, cols);
    rows + cols
  }

  lemma MovesFromCovers(b: Board, s: Square, rows: seq<Move>, cols: seq<Move>)
    requires rows == RowMoves(b, s, 0) && cols == ColumnMoves(b, s, 0)
    ensures forall t | IsLegal(b, s, t) :: Move(s, t) in rows + cols
  {
    forall t | IsLegal(b, s, t)
      ensures Move(s, t) in rows + cols
    {
      LegalTargetsAligned(b, s);
      if t.row == s.row {
        RowMovesComplete(b, s, 0, t);
      } else {
        ColumnMovesComplete(b, s, 0, t);
      }
    }
  }

  /** The outer loop of `legalMoves`, over the given squares in order. */
  function MovesFromAll(b: Board, squares: seq<Square>): (r: seq<Move>)
    ensures forall m | m in r :: m.from in squares && IsLegal(b, m.from, m.to)
    ensures forall s, t | s in squares && IsLegal(b, s, t) :: Move(s, t) in r
    ensures |r| <= 2 * SIZE * |squares|
  {
    if squares == [] then []
    else
      var first := MovesFrom(b, squares[0]);
      var rest := MovesFromAll(b, squares[1..]);
      assert forall s | s in squares[1..] :: s in squares;
      first + rest
  }

  /** The list built by `legalMoves(side)`, without its effect on the
      winner. */
  function LegalMoves(b: Board, side: Piece): (r: seq<Move>)
    requires side != Empty
    ensures |r| <= 2 * SIZE * 81
  {
    MovesFromAll(b, PieceLocations(b.grid, side))
  }

  /** A move is listed for `side` exactly when it starts on a square
      holding `side` and is legal. */
  lemma LegalMovesComplete(b: Board, side: Piece, m: Move)
    requires side != Empty
    ensures m in LegalMoves(b, side) <==> Get(b, m.from) == side && IsLegal(b, m.from, m.to)
  {
  }

  /** `isLegal` only lets the side on move (or the KING when WHITE moves)
      start a move, so asking for any other side lists nothing. */
  lemma OffTurnHasNoMoves(b: Board, side: Piece)
    requires side != Empty && side != b.turn
    requires !(side == King && b.turn == White)
    ensures LegalMoves(b, side) == []
  {
    var r := LegalMoves(b, side);
    if r != [] {
      var m := r[0];
      LegalMovesComplete(b, side, m);
      assert false;
    }
  }

  /** `Board.legalMoves(side)` with its side effect: when the list is
      empty, the opponent of the side on move is declared the winner. */
  function LegalMovesQuery(b: Board, side: Piece): (r: (Board, seq<Move>))
    requires side != Empty
    ensures r.1 == LegalMoves(b, side)
    ensures r.1 == [] ==> r.0 == b.(winner := Some(Opp(b.turn)))
    ensures r.1 != [] ==> r.0 == b
  {
    var moves := LegalMoves(b, side);
    if |moves| == 0 then (b.(winner := Some(Opp(b.turn))), moves)
    else (b, moves)
  }

  /** Some move is listed for `side` exactly when `side` has a legal move. */
  lemma ListedIffExists(b: Board, side: Piece)
    requires side != Empty
    ensures LegalMoves(b, side) != [] <==> exists from, to :: Get(b, from) == side && IsLegal(b, from, to)
  {
    var moves := LegalMoves(b, side);
    if moves != [] {
      LegalMovesComplete(b, side, moves[0]);
    } else {
      forall from, to | Get(b, from) == side && IsLegal(b, from, to)
        ensures false
      {
        LegalMovesComplete(b, side, Move(from, to));
      }
    }
  }

  /** `Board.hasMove(side)`, with the side effect of `legalMoves`. */
  function HasMove(b: Board, side: Piece): (r: (Board, bool))
    requires side != Empty
    ensures r.1 <==> exists from, to :: Get(b, from) == side && IsLegal(b, from, to)
    ensures r.0 == LegalMovesQuery(b, side).0
  {
    var (b1, moves) := LegalMovesQuery(b, side);
    ListedIffExists(b, side);
    (b1, |moves| != 0)
  }
}
