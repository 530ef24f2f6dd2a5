/** Playing and taking back moves: `Board.makeMove`, `checkRepeated`,
    `undo` and `undoPosition`. `makeMove` is the composition of four
    stages: the piece is relocated, the capture rules run, the win tests
    run, and the position is recorded; then the turn passes. */
module Play {
  import opened Wrappers
  import opened Geometry
  import opened Pieces
  import opened Boards
  import opened Captures

  /** The first lines of `makeMove`: the piece on `from` is put on `to`,
      `from` is emptied, the move is pushed and the capture flag cleared. */
  function Relocate(b: Board, from: Square, to: Square): (r: Board)
    ensures Get(r, from) == Empty
    ensures from != to ==> Get(r, to) == Get(b, from)
    ensures forall s :: s != from && s != to ==> Get(r, s) == Get(b, s)
    ensures r.moves == b.moves + [Move(from, to)] && r.captured.None?
    ensures r.turn == b.turn && r.winner == b.winner && r.repeated == b.repeated
    ensures r.seen == b.seen && r.limit == b.limit
  {
    var moving := Get(b, from);
    var b1 := Put(b, moving, to);
    var b2 := Put(b1, Empty, from);
    b2.(moves := b.moves + [Move(from, to)], captured := None)
  }

  /** The win tests of `makeMove`: no KING means BLACK has won; otherwise,
      if nobody has won yet, the KING found by `kingPosition` standing on a
      corner means WHITE has won. */
  function DetectWin(b: Board): (r: Board)
  {
    if NoKing(b.grid) then b.(winner := Some(Black))
    else if b.winner.None? && IsCorner(KingPosition(b.grid).value) then b.(winner := Some(White))
    else b
  }

  /** `checkRepeated`: a layout seen before makes the position a repeat,
      won by the opponent of the side on move; a new layout is recorded. */
  function RecordPosition(b: Board): (r: Board)
    ensures r.grid == b.grid && r.turn == b.turn && r.moves == b.moves
    ensures r.seen == b.seen + {Layout(b.grid)}
    ensures Layout(b.grid) in b.seen ==> r.repeated && r.winner == Some(Opp(b.turn))
    ensures Layout(b.grid) !in b.seen ==> r.repeated == b.repeated && r.winner == b.winner
  {
    var mine := Layout(b.grid);
    if mine in b.seen then b.(repeated := true, winner := Some(Opp(b.turn)))
    else b.(seen := b.seen + {mine})
  }

  /** The end of `makeMove` after capture processing: the win tests, then
      `checkRepeated`, then the turn passes. */
  function Conclude(c: Board): (r: Board)
    ensures r.grid == c.grid && r.moves == c.moves && r.limit == c.limit
    ensures r.turn == Opp(c.turn) && r.captured == c.captured
    ensures NoKing(c.grid) ==> r.winner.Some?
    ensures r.seen == c.seen + {Layout(c.grid)}
    ensures Layout(c.grid) in c.seen ==> r.repeated && r.winner == Some(Opp(c.turn))
    ensures Layout(c.grid) !in c.seen ==> r.repeated == c.repeated
  {
    RecordPosition(DetectWin(c)).(turn := Opp(c.turn))
  }

  /** The board after relocation and capture processing, before the win
      tests. */
  function Resolved(b: Board, m: Move): (r: Board)
    ensures CaptureStep(Relocate(b, m.from, m.to), r, m.to)
    ensures r.turn == b.turn && r.seen == b.seen && r.repeated == b.repeated
  {
    ResolveCaptures(Relocate(b, m.from, m.to), m.to)
  }

  /** `Board.makeMove(from, to)` on a legal move. */
  function MakeMove(b: Board, m: Move): (r: Board)
    requires IsLegal(b, m.from, m.to)
    ensures MoveCount(r) == MoveCount(b) + 1
    ensures r.turn == Opp(b.turn)
    ensures r.moves == b.moves + [m] && r.limit == b.limit
    ensures ClearsOnly(Relocate(b, m.from, m.to).grid, r.grid)
    ensures Get(r, m.from) == Empty
    ensures NoKing(r.grid) ==> r.winner.Some?
    ensures r.seen == b.seen + {Layout(r.grid)}
    ensures Layout(r.grid) in b.seen ==> r.repeated && r.winner == Some(Opp(b.turn))
    ensures Layout(r.grid) !in b.seen ==> r.repeated == b.repeated
  {
    var c := Resolved(b, m);
    assert Get(c, m.from) == Empty by {
      EmptyPersists(Relocate(b, m.from, m.to), c, m.to, m.from);
    }
    Conclude(c)
  }

  // ---------------------------------------------------------------------
  // Properties of makeMove

  /** `Relocate` moves a piece without creating one, so a single KING stays
      single. */
  lemma RelocateKeepsOneKing(b: Board, from: Square, to: Square)
    requires AtMostOneKing(b.grid) && from != to
    ensures AtMostOneKing(Relocate(b, from, to).grid)
  {
    var g1 := Relocate(b, from, to).grid;
    forall i, j | 0 <= i < 81 && 0 <= j < 81 && g1[i] == King && g1[j] == King
      ensures i == j
    {
      var si, sj := SquareAt(i), SquareAt(j);
      assert si.Index() == i && sj.Index() == j;
      var fi := if si == to then from else si;
      var fj := if sj == to then from else sj;
      assert At(b.grid, fi) == King && At(b.grid, fj) == King;
      IndexInjective(fi, fj);
    }
  }

  /** The piece of the side on move lands on `to` and is never taken by
      its own move. */
  lemma MoverSurvives(b: Board, m: Move)
    requires IsLegal(b, m.from, m.to)
    requires Get(b, m.from) == b.turn
    ensures Get(MakeMove(b, m), m.to) == b.turn
  {
    var b1 := Relocate(b, m.from, m.to);
    var c := Resolved(b, m);
    assert Friendly(b1, m.to);
    var k := m.to.Index();
    assert b1.grid[k] == b.turn;
    assert c.grid[k] == b.turn;
  }

  /** A KING moving off the throne, as the only KING, is never taken by
      its own move and stays on `to`. */
  lemma KingMoveIsSafe(b: Board, m: Move)
    requires IsLegal(b, m.from, m.to)
    requires Get(b, m.from) == King && m.to != THRONE && AtMostOneKing(b.grid)
    ensures Get(MakeMove(b, m), m.to) == King
  {
    var b1 := Relocate(b, m.from, m.to);
    var c := Resolved(b, m);
    assert b.turn == White;
    assert Get(b1, THRONE) != King by {
      if THRONE != m.from {
        assert Get(b, THRONE) != King by {
          IndexInjective(THRONE, m.from);
        }
      }
    }
    assert KingSafeMove(b1, m.to);
    var k := m.to.Index();
    assert b1.grid[k] == King;
    assert c.grid[k] == King;
  }

  /** Capture processing never adds a KING, so a board with at most one
      KING keeps at most one. */
  lemma MakeMoveKeepsOneKing(b: Board, m: Move)
    requires IsLegal(b, m.from, m.to) && AtMostOneKing(b.grid)
    ensures AtMostOneKing(MakeMove(b, m).grid)
  {
    RelocateKeepsOneKing(b, m.from, m.to);
    ClearingKeepsOneKing(Relocate(b, m.from, m.to).grid, MakeMove(b, m).grid);
  }

  /** No KING after capture processing means BLACK has won, unless the
      resulting layout repeats one already seen. */
  lemma NoKingMeansBlackWins(b: Board, m: Move)
    requires IsLegal(b, m.from, m.to)
    requires NoKing(MakeMove(b, m).grid)
    requires Layout(MakeMove(b, m).grid) !in b.seen
    ensures MakeMove(b, m).winner == Some(Black)
  {
    var c := Resolved(b, m);
    assert c.seen == b.seen;
  }

  /** With a single KING and no winner yet, the game is won by WHITE
      exactly when the KING ends the move on a corner (and the layout is
      new); otherwise, while the KING survives, there is still no winner. */
  lemma CornerWin(b: Board, m: Move)
    requires IsLegal(b, m.from, m.to)
    requires AtMostOneKing(b.grid) && b.winner.None?
    requires !NoKing(MakeMove(b, m).grid)
    requires Layout(MakeMove(b, m).grid) !in b.seen
    ensures MakeMove(b, m).winner == Some(White) <==> IsCorner(KingPosition(MakeMove(b, m).grid).value)
    ensures MakeMove(b, m).winner.None? <==> !IsCorner(KingPosition(MakeMove(b, m).grid).value)
  {
    var b1 := Relocate(b, m.from, m.to);
    var c := Resolved(b, m);
    RelocateKeepsOneKing(b, m.from, m.to);
    assert c.winner.None? && c.seen == b.seen;
  }

  /** Returning to a layout already reached is a repeat: the layout left
      by move `m` on `b` stays recorded in every later board `c` whose
      history includes it, and a move on `c` that recreates it is flagged
      and lost by the side making it. */
  lemma RepeatAfterReturn(b: Board, m: Move, c: Board, n: Move)
    requires IsLegal(b, m.from, m.to) && IsLegal(c, n.from, n.to)
    requires MakeMove(b, m).seen <= c.seen
    requires MakeMove(c, n).grid == MakeMove(b, m).grid
    ensures MakeMove(c, n).repeated && MakeMove(c, n).winner == Some(Opp(c.turn))
  {
    assert Layout(MakeMove(c, n).grid) in c.seen;
  }

  // ---------------------------------------------------------------------
  // undo

  /** `Board.undo` and `undoPosition`. With no moves it does nothing.
      Otherwise the last captured piece is put back if the last move
      captured, the moved piece returns to its origin and the destination
      is emptied, the move is popped and the repetition flag is cleared.
      The side to move, the winner and the seen layouts are not restored:
      `encodedboards.remove` is given the full encoding with its turn
      character, which never equals a recorded layout. */
  function Undo(b: Board): (r: Board)
    ensures MoveCount(b) == 0 ==> r == b
    ensures MoveCount(b) > 0 ==> MoveCount(r) == MoveCount(b) - 1 && !r.repeated
    ensures MoveCount(b) > 0 ==> r.moves == b.moves[..MoveCount(b) - 1]
    ensures r.turn == b.turn && r.winner == b.winner && r.seen == b.seen && r.limit == b.limit
    ensures r.captured.None? || r == b
  {
    if |b.moves| == 0 then b
    else
      var b1 := match b.captured
        case Some(Placement(s, p)) => Put(b, p, s).(captured := None)
        case None => b;
      var m := b.moves[|b.moves| - 1];
      var b2 := Put(b1, Get(b1, m.to), m.from);
      var b3 := Put(b2, Empty, m.to);
      b3.(moves := b.moves[..|b.moves| - 1], repeated := false)
  }

  /** Taking back a relocation that captured nothing restores the grid. */
  lemma UndoRelocation(b: Board, from: Square, to: Square, r: Board)
    requires from != to && Get(b, to) == Empty
    requires r.grid == Relocate(b, from, to).grid && r.captured.None?
    requires r.moves == b.moves + [Move(from, to)]
    ensures Undo(r).grid == b.grid && Undo(r).moves == b.moves
  {
    var u := Undo(r);
    assert r.moves[|r.moves| - 1] == Move(from, to);
    assert r.moves[..|r.moves| - 1] == b.moves;
    forall i | 0 <= i < 81
      ensures u.grid[i] == b.grid[i]
    {
      var s := SquareAt(i);
      assert s.Index() == i;
      assert Get(u, s) == Get(b, s);
    }
  }

  /** Undoing a move that captured nothing restores the grid and the move
      history exactly; the turn stays with the opponent. */
  lemma UndoQuietMove(b: Board, m: Move)
    requires IsLegal(b, m.from, m.to)
    requires MakeMove(b, m).captured.None?
    ensures Undo(MakeMove(b, m)).grid == b.grid
    ensures Undo(MakeMove(b, m)).moves == b.moves
    ensures MoveCount(Undo(MakeMove(b, m))) == MoveCount(b)
    ensures !Undo(MakeMove(b, m)).repeated
    ensures Undo(MakeMove(b, m)).turn == Opp(b.turn)
  {
    var c := Resolved(b, m);
    assert c.grid == Relocate(b, m.from, m.to).grid;
    UndoRelocation(b, m.from, m.to, MakeMove(b, m));
  }

  /** Undoing a capturing move puts back the last piece taken. */
  lemma UndoRestoresLastCapture(b: Board, m: Move)
    requires IsLegal(b, m.from, m.to)
    requires MakeMove(b, m).captured.Some?
    requires MakeMove(b, m).captured.value.square != m.from
    requires MakeMove(b, m).captured.value.square != m.to
    ensures Get(Undo(MakeMove(b, m)), MakeMove(b, m).captured.value.square)
            == MakeMove(b, m).captured.value.piece
  {
  }
}
