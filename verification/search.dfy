/** The AI's game-tree search: `AI.findMove(Board, int, boolean, int, int,
    int)`, a depth-limited minimax with alpha-beta pruning, and the
    top-level `AI.findMove()` that starts it. The field `_lastFoundMove`
    that the search writes is threaded through as the recorded move. */
module Search {
  import opened Wrappers
  import opened Geometry
  import opened Pieces
  import opened Boards
  import opened Play
  import opened MoveGen
  import opened Evaluation

  function Max(a: int, b: int): int { if a >= b then a else b }
  function Min(a: int, b: int): int { if a <= b then a else b }

  /** What `findMove` returns, with the recorded move after the call. */
  datatype Outcome = Outcome(value: int, recorded: Option<Move>)

  /** The loop variables of one node: the running best (`maxEval` or
      `minEval`), the window, and the recorded move. */
  datatype Frame = Frame(best: int, alpha: int, beta: int, recorded: Option<Move>)

  /** The result of a node's loop, with the child values it computed, in
      order. */
  datatype ScanResult = ScanResult(value: int, recorded: Option<Move>, evals: seq<int>)

  /** The loop body after a child of value `eval` for move `m` has been
      evaluated: the running best and one end of the window move towards
      `eval`, and at the root (`save`) the move is recorded when nothing is
      recorded yet or `eval` equals the new running best. */
  function Absorb(fr: Frame, eval: int, m: Move, save: bool, maximizing: bool): (r: Frame)
  {
    var best := if maximizing then Max(fr.best, eval) else Min(fr.best, eval);
    var alpha := if maximizing then Max(fr.alpha, eval) else fr.alpha;
    var beta := if maximizing then fr.beta else Min(fr.beta, eval);
    var recorded := if save && (fr.recorded.None? || eval == best) then Some(m) else fr.recorded;
    Frame(best, alpha, beta, recorded)
  }

  /** The loop's `break` test. */
  predicate Cut(fr: Frame)
  {
    fr.beta <= fr.alpha
  }

  /** The moves `findMove` tries at a node: WHITE's for `sense == 1`,
      BLACK's otherwise. */
  function NodeMoves(b: Board, sense: int): (r: seq<Move>)
    ensures forall m | m in r :: IsLegal(b, m.from, m.to)
  {
    var side := if sense == 1 then White else Black;
    var r := LegalMoves(b, side);
    forall m | m in r
      ensures IsLegal(b, m.from, m.to)
    {
      LegalMovesComplete(b, side, m);
    }
    r
  }

  /** The copy of the board a child is played on is legal ground for the
      same moves. */
  lemma CopyKeepsLegality(b: Board, m: Move)
    ensures IsLegal(Copy(b), m.from, m.to) == IsLegal(b, m.from, m.to)
  {
  }

  /** The board `new Board(board)` followed by `makeMove(move)` produces.
      It can be scored statically: either a KING is left or the game is
      over. */
  function Child(b: Board, m: Move): (r: Board)
    requires IsLegal(b, m.from, m.to)
    ensures ScoreDefined(r)
    ensures MoveCount(r) == 1 && r.moves == [m] && r.turn == Opp(b.turn)
  {
    CopyKeepsLegality(b, m);
    MakeMove(Copy(b), m)
  }

  /** The children of `b` for each of `moves`, in order. */
  function Children(b: Board, moves: seq<Move>): (r: seq<Board>)
    requires forall m | m in moves :: IsLegal(b, m.from, m.to)
    ensures |r| == |moves|
    ensures forall i | 0 <= i < |r| :: r[i] == Child(b, moves[i])
    ensures forall c | c in r :: ScoreDefined(c)
  {
    seq(|moves|, i requires 0 <= i < |moves| => Child(b, moves[i]))
  }

  /** `findMove(board, depth, saveMove, sense, alpha, beta)`, starting with
      `rec` as `_lastFoundMove`. At depth 0 it is the static score; a node
      with `sense == 1` maximises over WHITE's moves from `-INFTY`, any
      other node minimises over BLACK's moves from `INFTY`. */
  function Search(b: Board, depth: nat, save: bool, sense: int, alpha: int, beta: int,
                  rec: Option<Move>, me: Piece): (r: Outcome)
    requires depth == 0 ==> ScoreDefined(b)
    ensures -INFTY <= r.value <= INFTY
    ensures !save ==> r.recorded == rec
    ensures r.recorded == rec || (r.recorded.Some? && r.recorded.value in NodeMoves(b, sense))
    ensures depth > 0 && save && NodeMoves(b, sense) != [] ==> r.recorded.Some?
    decreases depth, 1
  {
    if depth == 0 then Outcome(StaticScore(b, me), rec)
    else
      var maximizing := sense == 1;
      var init := if maximizing then -INFTY else INFTY;
      var moves := NodeMoves(b, sense);
      var s := Scan(b, moves, Children(b, moves), depth, save, maximizing, Frame(init, alpha, beta, rec), me);
      Outcome(s.value, s.recorded)
  }

  /** The value of a child, searched one level shallower with the current
      window and the opposite sense, without recording. */
  function ChildValue(child: Board, depth: nat, maximizing: bool, fr: Frame, me: Piece): (r: int)
    requires depth >= 1 && ScoreDefined(child)
    ensures -INFTY <= r <= INFTY
    decreases depth, 0, 0
  {
    Search(child, depth - 1, false, if maximizing then -1 else 1, fr.alpha, fr.beta, fr.recorded, me).value
  }

  /** The `for (Move move: allMoves)` loop of a node, over the moves not
      yet tried and their child boards. After each child, the node returns
      `WINNING_VALUE` or `-WINNING_VALUE` if the board searched already has
      a winner, and stops when the window has closed. */
  function Scan(b: Board, moves: seq<Move>, children: seq<Board>, depth: nat, save: bool,
                maximizing: bool, fr: Frame, me: Piece): (r: ScanResult)
    requires depth >= 1 && |children| == |moves|
    requires forall c | c in children :: ScoreDefined(c)
    requires -INFTY <= fr.best <= INFTY
    ensures -INFTY <= r.value <= INFTY
    ensures forall e | e in r.evals :: -INFTY <= e <= INFTY
    ensures moves == [] <==> r.evals == []
    ensures |r.evals| <= |moves|
    ensures !save ==> r.recorded == fr.recorded
    ensures r.recorded == fr.recorded || (r.recorded.Some? && r.recorded.value in moves)
    ensures save && moves != [] ==> r.recorded.Some?
    decreases depth, 0, |moves|
  {
    if moves == [] then ScanResult(fr.best, fr.recorded, [])
    else
      var m := moves[0];
      var eval := ChildValue(children[0], depth, maximizing, fr, me);
      var fr1 := Absorb(fr, eval, m, save, maximizing);
      if b.winner == Some(White) then ScanResult(WINNING_VALUE, fr1.recorded, [eval])
      else if b.winner == Some(Black) then ScanResult(-WINNING_VALUE, fr1.recorded, [eval])
      else if Cut(fr1) then ScanResult(fr1.best, fr1.recorded, [eval])
      else
        var rest := Scan(b, moves[1..], children[1..], depth, save, maximizing, fr1, me);
        ScanResult(rest.value, rest.recorded, [eval] + rest.evals)
  }

  // ---------------------------------------------------------------------
  // The loop as a fold

  /** The frame after absorbing the child values `evals` for the first
      `|evals|` of `moves`, in order. */
  function Replay(fr: Frame, evals: seq<int>, moves: seq<Move>, save: bool, maximizing: bool): (r: Frame)
    requires |evals| <= |moves|
    decreases |evals|
  {
    if evals == [] then fr
    else Replay(Absorb(fr, evals[0], moves[0], save, maximizing), evals[1..], moves[1..], save, maximizing)
  }

  /** Replaying one more value is one more `Absorb`. */
  lemma {:induction false} ReplaySnoc(fr: Frame, evals: seq<int>, e: int, moves: seq<Move>, save: bool, maximizing: bool)
    requires |evals| < |moves|
    ensures Replay(fr, evals + [e], moves, save, maximizing)
            == Absorb(Replay(fr, evals, moves, save, maximizing), e, moves[|evals|], save, maximizing)
    decreases |evals|
  {
    if evals != [] {
      var fr1 := Absorb(fr, evals[0], moves[0], save, maximizing);
      assert (evals + [e])[1..] == evals[1..] + [e];
      ReplaySnoc(fr1, evals[1..], e, moves[1..], save, maximizing);
    }
  }

  /** One turn of the loop of a node without a winner: the first child is
      evaluated with the incoming window, and unless the window then
      closes the loop carries on with the rest. */
  lemma ScanStep(b: Board, moves: seq<Move>, children: seq<Board>, depth: nat, save: bool,
                 maximizing: bool, fr: Frame, me: Piece)
    requires depth >= 1 && |children| == |moves|
    requires forall c | c in children :: ScoreDefined(c)
    requires -INFTY <= fr.best <= INFTY
    requires b.winner.None? && moves != []
    ensures var s := Scan(b, moves, children, depth, save, maximizing, fr, me);
      var eval := ChildValue(children[0], depth, maximizing, fr, me);
      var fr1 := Absorb(fr, eval, moves[0], save, maximizing);
      && s.evals[0] == eval
      && (Cut(fr1) ==> s == ScanResult(fr1.best, fr1.recorded, [eval]))
      && (!Cut(fr1) ==>
            var rest := Scan(b, moves[1..], children[1..], depth, save, maximizing, fr1, me);
            s == ScanResult(rest.value, rest.recorded, [eval] + rest.evals))
  {
  }

  /** Replaying a prefix of `[e] + rest` is absorbing `e`, then replaying
      the matching prefix of `rest` on the remaining moves. */
  lemma ReplayCons(fr: Frame, e: int, rest: seq<int>, moves: seq<Move>, save: bool, maximizing: bool, k: nat)
    requires 0 < k <= |rest| + 1 <= |moves|
    ensures Replay(fr, ([e] + rest)[..k], moves, save, maximizing)
            == Replay(Absorb(fr, e, moves[0], save, maximizing), rest[..k - 1], moves[1..], save, maximizing)
  {
    assert ([e] + rest)[..k][0] == e;
    assert ([e] + rest)[..k][1..] == rest[..k - 1];
  }

  /** A node without a winner returns the running best of the fold over
      the children it evaluated and records what the fold records; when
      it evaluated fewer children than it has moves, the window had closed. */
  lemma {:induction false} ScanIsReplay(b: Board, moves: seq<Move>, children: seq<Board>, depth: nat,
                                        save: bool, maximizing: bool, fr: Frame, me: Piece)
    requires depth >= 1 && |children| == |moves|
    requires forall c | c in children :: ScoreDefined(c)
    requires -INFTY <= fr.best <= INFTY
    requires b.winner.None?
    ensures var s := Scan(b, moves, children, depth, save, maximizing, fr, me);
      && s.value == Replay(fr, s.evals, moves, save, maximizing).best
      && s.recorded == Replay(fr, s.evals, moves, save, maximizing).recorded
      && (|s.evals| < |moves| ==> Cut(Replay(fr, s.evals, moves, save, maximizing)))
    decreases |moves|
  {
    if moves != [] {
      var s := Scan(b, moves, children, depth, save, maximizing, fr, me);
      ScanStep(b, moves, children, depth, save, maximizing, fr, me);
      var eval := s.evals[0];
      var fr1 := Absorb(fr, eval, moves[0], save, maximizing);
      if Cut(fr1) {
        assert Replay(fr, s.evals, moves, save, maximizing) == Replay(fr1, [], moves[1..], save, maximizing);
      } else {
        var rest := Scan(b, moves[1..], children[1..], depth, save, maximizing, fr1, me);
        ScanIsReplay(b, moves[1..], children[1..], depth, save, maximizing, fr1, me);
        assert s.evals[1..] == rest.evals;
        assert Replay(fr, s.evals, moves, save, maximizing) == Replay(fr1, rest.evals, moves[1..], save, maximizing);
      }
    }
  }

  /** The loop of a node without a winner does not stop before the window
      closes: after none of the children but the last it evaluated was the
      window closed. */
  lemma {:induction false} ScanStopsAtFirstCut(b: Board, moves: seq<Move>, children: seq<Board>, depth: nat,
                                               save: bool, maximizing: bool, fr: Frame, me: Piece)
    requires depth >= 1 && |children| == |moves|
    requires forall c | c in children :: ScoreDefined(c)
    requires -INFTY <= fr.best <= INFTY
    requires b.winner.None?
    ensures var s := Scan(b, moves, children, depth, save, maximizing, fr, me);
      forall k | 0 < k < |s.evals| :: !Cut(Replay(fr, s.evals[..k], moves, save, maximizing))
    decreases |moves|
  {
    if moves != [] {
      var s := Scan(b, moves, children, depth, save, maximizing, fr, me);
      ScanStep(b, moves, children, depth, save, maximizing, fr, me);
      var eval := s.evals[0];
      var fr1 := Absorb(fr, eval, moves[0], save, maximizing);
      if !Cut(fr1) {
        var rest := Scan(b, moves[1..], children[1..], depth, save, maximizing, fr1, me);
        ScanStopsAtFirstCut(b, moves[1..], children[1..], depth, save, maximizing, fr1, me);
        forall k | 0 < k < |s.evals|
          ensures !Cut(Replay(fr, s.evals[..k], moves, save, maximizing))
        {
          ReplayCons(fr, eval, rest.evals, moves, save, maximizing, k);
          if k == 1 {
            assert rest.evals[..0] == [];
          }
        }
      }
    }
  }

  /** Each child of a node without a winner is searched with the window
      the loop had reached before it. */
  lemma {:induction false} ScanEvaluatesInOrder(b: Board, moves: seq<Move>, children: seq<Board>, depth: nat,
                                                save: bool, maximizing: bool, fr: Frame, me: Piece)
    requires depth >= 1 && |children| == |moves|
    requires forall c | c in children :: ScoreDefined(c)
    requires -INFTY <= fr.best <= INFTY
    requires b.winner.None?
    ensures var s := Scan(b, moves, children, depth, save, maximizing, fr, me);
      forall k | 0 <= k < |s.evals| ::
        s.evals[k] == ChildValue(children[k], depth, maximizing,
                                 Replay(fr, s.evals[..k], moves, save, maximizing), me)
    decreases |moves|
  {
    if moves != [] {
      var s := Scan(b, moves, children, depth, save, maximizing, fr, me);
      ScanStep(b, moves, children, depth, save, maximizing, fr, me);
      var eval := s.evals[0];
      var fr1 := Absorb(fr, eval, moves[0], save, maximizing);
      assert Replay(fr, s.evals[..0], moves, save, maximizing) == fr;
      if !Cut(fr1) {
        var rest := Scan(b, moves[1..], children[1..], depth, save, maximizing, fr1, me);
        ScanEvaluatesInOrder(b, moves[1..], children[1..], depth, save, maximizing, fr1, me);
        assert s.evals == [eval] + rest.evals;
        forall k | 0 < k < |s.evals|
          ensures s.evals[k] == ChildValue(children[k], depth, maximizing,
                                           Replay(fr, s.evals[..k], moves, save, maximizing), me)
        {
          EvalShift(fr, eval, rest.evals, moves, children, depth, save, maximizing, me, k);
        }
      }
    }
  }

  /** The child value at position `k > 0` of `[eval] + rest`, searched
      with the window of the fold that starts by absorbing `eval`. */
  lemma EvalShift(fr: Frame, eval: int, rest: seq<int>, moves: seq<Move>, children: seq<Board>,
                  depth: nat, save: bool, maximizing: bool, me: Piece, k: nat)
    requires 0 < k < |rest| + 1 <= |moves| && |children| == |moves| && depth >= 1
    requires forall c | c in children :: ScoreDefined(c)
    requires rest[k - 1] == ChildValue(children[1..][k - 1], depth, maximizing,
                                      Replay(Absorb(fr, eval, moves[0], save, maximizing), rest[..k - 1],
                                             moves[1..], save, maximizing), me)
    ensures ([eval] + rest)[k] == ChildValue(children[k], depth, maximizing,
                                             Replay(fr, ([eval] + rest)[..k], moves, save, maximizing), me)
  {
    ReplayCons(fr, eval, rest, moves, save, maximizing, k);
    assert children[1..][k - 1] == children[k];
  }

  /** A node whose board already has a winner evaluates exactly one child
      (if any) and returns the winner's value. */
  lemma WinnerExitsEarly(b: Board, moves: seq<Move>, children: seq<Board>, depth: nat, save: bool,
                         maximizing: bool, fr: Frame, me: Piece)
    requires depth >= 1 && |children| == |moves|
    requires forall c | c in children :: ScoreDefined(c)
    requires -INFTY <= fr.best <= INFTY
    requires b.winner.Some? && moves != []
    ensures var s := Scan(b, moves, children, depth, save, maximizing, fr, me);
      && |s.evals| == 1
      && s.value == (if b.winner == Some(White) then WINNING_VALUE else -WINNING_VALUE)
      && s.recorded == Absorb(fr, s.evals[0], moves[0], save, maximizing).recorded
  {
  }

  /** With no moves a maximising node returns `-INFTY` and a minimising
      node `INFTY`. */
  lemma NoMovesValue(b: Board, depth: nat, save: bool, sense: int, alpha: int, beta: int,
                     rec: Option<Move>, me: Piece)
    requires depth > 0 && NodeMoves(b, sense) == []
    ensures Search(b, depth, save, sense, alpha, beta, rec, me)
            == Outcome(if sense == 1 then -INFTY else INFTY, rec)
  {
  }

  /** At depth 0 the value is the static score and nothing is recorded. */
  lemma DepthZeroIsStatic(b: Board, save: bool, sense: int, alpha: int, beta: int,
                          rec: Option<Move>, me: Piece)
    requires ScoreDefined(b)
    ensures Search(b, 0, save, sense, alpha, beta, rec, me) == Outcome(StaticScore(b, me), rec)
  {
  }

  // ---------------------------------------------------------------------
  // Properties of the fold

  /** The fold's running best is the maximum (or minimum) of the start
      value and the values absorbed; `alpha` only grows and `beta` only
      shrinks. */
  lemma {:induction false} ReplayBounds(fr: Frame, evals: seq<int>, moves: seq<Move>, save: bool, maximizing: bool)
    requires |evals| <= |moves|
    ensures var r := Replay(fr, evals, moves, save, maximizing);
      && (maximizing ==> r.best >= fr.best && r.alpha >= fr.alpha && r.beta == fr.beta)
      && (!maximizing ==> r.best <= fr.best && r.beta <= fr.beta && r.alpha == fr.alpha)
      && (maximizing ==> forall k | 0 <= k < |evals| :: evals[k] <= r.best)
      && (!maximizing ==> forall k | 0 <= k < |evals| :: evals[k] >= r.best)
      && (r.best == fr.best || exists k | 0 <= k < |evals| :: r.best == evals[k])
    decreases |evals|
  {
    if evals != [] {
      var fr1 := Absorb(fr, evals[0], moves[0], save, maximizing);
      ReplayBounds(fr1, evals[1..], moves[1..], save, maximizing);
      var r := Replay(fr, evals, moves, save, maximizing);
      forall k | 0 <= k < |evals|
        ensures maximizing ==> evals[k] <= r.best
        ensures !maximizing ==> evals[k] >= r.best
      {
        if k > 0 {
          assert evals[k] == evals[1..][k - 1];
        }
      }
      if r.best != fr1.best {
        var k :| 0 <= k < |evals[1..]| && r.best == evals[1..][k];
        assert r.best == evals[k + 1];
      }
    }
  }

  /** Alpha never decreases along the loop of a maximising node (nor beta
      increases along a minimising one). */
  lemma AlphaMonotone(fr: Frame, evals: seq<int>, moves: seq<Move>, save: bool, maximizing: bool, i: nat, j: nat)
    requires i <= j <= |evals| <= |moves|
    ensures maximizing ==> Replay(fr, evals[..i], moves, save, maximizing).alpha
                           <= Replay(fr, evals[..j], moves, save, maximizing).alpha
    ensures !maximizing ==> Replay(fr, evals[..i], moves, save, maximizing).beta
                            >= Replay(fr, evals[..j], moves, save, maximizing).beta
  {
    var mid := Replay(fr, evals[..i], moves, save, maximizing);
    ReplaySplit(fr, evals[..j], i, moves, save, maximizing);
    assert evals[..j][..i] == evals[..i];
    ReplayBounds(mid, evals[..j][i..], moves[i..], save, maximizing);
  }

  /** Replaying a sequence is replaying its first `i` values, then the rest. */
  lemma {:induction false} ReplaySplit(fr: Frame, evals: seq<int>, i: nat, moves: seq<Move>, save: bool, maximizing: bool)
    requires i <= |evals| <= |moves|
    ensures Replay(fr, evals, moves, save, maximizing)
            == Replay(Replay(fr, evals[..i], moves, save, maximizing), evals[i..], moves[i..], save, maximizing)
    decreases i
  {
    if i > 0 {
      var fr1 := Absorb(fr, evals[0], moves[0], save, maximizing);
      ReplaySplit(fr1, evals[1..], i - 1, moves[1..], save, maximizing);
      assert evals[..i][1..] == evals[1..][..i - 1];
      assert evals[1..][i - 1..] == evals[i..];
      assert moves[1..][i - 1..] == moves[i..];
    }
  }

  // ---------------------------------------------------------------------
  // The recorded move at the root

  /** With recording on and nothing recorded at the start, the fold
      records the LAST move whose value equals the final running best (a
      later tie replaces an earlier one), provided the start value does
      not beat the first child. */
  lemma {:induction false} ReplayRecordsLastBest(fr: Frame, evals: seq<int>, moves: seq<Move>, maximizing: bool)
    requires 0 < |evals| <= |moves|
    requires fr.recorded.None?
    requires maximizing ==> forall k | 0 <= k < |evals| :: fr.best <= evals[k]
    requires !maximizing ==> forall k | 0 <= k < |evals| :: evals[k] <= fr.best
    ensures var r := Replay(fr, evals, moves, true, maximizing);
      exists k | 0 <= k < |evals| ::
        && r.recorded == Some(moves[k]) && evals[k] == r.best
        && forall j | k < j < |evals| :: evals[j] != r.best
    decreases |evals|
  {
    var n := |evals| - 1;
    var pre, e := evals[..n], evals[n];
    assert evals == pre + [e];
    ReplaySnoc(fr, pre, e, moves, true, maximizing);
    var r := Replay(fr, evals, moves, true, maximizing);
    var rp := Replay(fr, pre, moves, true, maximizing);
    if n == 0 {
      assert rp == fr;
      assert r.recorded == Some(moves[0]) && evals[0] == r.best;
    } else {
      ReplayRecordsLastBest(fr, pre, moves, maximizing);
      var k0 :| 0 <= k0 < |pre| && rp.recorded == Some(moves[k0]) && pre[k0] == rp.best
                && forall j | k0 < j < |pre| :: pre[j] != rp.best;
      if e == r.best {
        assert r.recorded == Some(moves[n]);
      } else {
        assert r.best == rp.best && r.recorded == rp.recorded;
        assert evals[k0] == r.best;
        forall j | k0 < j < |evals|
          ensures evals[j] != r.best
        {
          if j < n {
            assert evals[j] == pre[j];
          }
        }
      }
    }
  }

  /** The loop of a recording node without a winner, started from
      `-INFTY` (maximising) or `INFTY` (minimising) with nothing recorded,
      over at least one move: the value is that of some child, and the
      recorded move is the last move whose child has that value. */
  lemma ScanRecordsLastBest(b: Board, moves: seq<Move>, children: seq<Board>, depth: nat,
                            maximizing: bool, fr: Frame, me: Piece)
    requires depth >= 1 && |children| == |moves|
    requires forall c | c in children :: ScoreDefined(c)
    requires fr.best == (if maximizing then -INFTY else INFTY) && fr.recorded.None?
    requires b.winner.None? && moves != []
    ensures var s := Scan(b, moves, children, depth, true, maximizing, fr, me);
      exists k | 0 <= k < |s.evals| ::
        && s.recorded == Some(moves[k]) && s.evals[k] == s.value
        && forall j | k < j < |s.evals| :: s.evals[j] != s.value
  {
    var s := Scan(b, moves, children, depth, true, maximizing, fr, me);
    ScanIsReplay(b, moves, children, depth, true, maximizing, fr, me);
    forall k | 0 <= k < |s.evals|
      ensures -INFTY <= s.evals[k] <= INFTY
    {
      assert s.evals[k] in s.evals;
    }
    ReplayRecordsLastBest(fr, s.evals, moves, maximizing);
  }

  /** `findMove(board, depth, true, sense, alpha, beta)` called with no
      move recorded, on a board without a winner that has moves, returns
      the value of its loop and records the last move whose child has that
      value. */
  lemma RootRecordsLastBest(b: Board, depth: nat, sense: int, alpha: int, beta: int, me: Piece)
    requires depth > 0 && b.winner.None? && NodeMoves(b, sense) != []
    ensures var moves := NodeMoves(b, sense);
      var s := Scan(b, moves, Children(b, moves), depth, true, sense == 1,
                    Frame(if sense == 1 then -INFTY else INFTY, alpha, beta, None), me);
      && Search(b, depth, true, sense, alpha, beta, None, me) == Outcome(s.value, s.recorded)
      && exists k | 0 <= k < |s.evals| ::
           && s.recorded == Some(moves[k]) && s.evals[k] == s.value
           && forall j | k < j < |s.evals| :: s.evals[j] != s.value
  {
    var moves := NodeMoves(b, sense);
    var fr := Frame(if sense == 1 then -INFTY else INFTY, alpha, beta, None);
    ScanRecordsLastBest(b, moves, Children(b, moves), depth, sense == 1, fr, me);
  }

  // ---------------------------------------------------------------------
  // AI.findMove()

  /** The side whose moves the AI searches for player `me`: WHITE for
      WHITE or KING, BLACK for BLACK. */
  function Searching(me: Piece): (r: Piece)
    requires me != Empty
    ensures r == White || r == Black
  {
    if me == Black then Black else White
  }

  /** The root's moves are the listed moves of the side searched: those
      starting on a square holding that side that are legal on `b`. */
  lemma RootMoves(b: Board, me: Piece)
    requires me != Empty
    ensures forall m :: m in NodeMoves(Copy(b), if me == Black then -1 else 1)
                        <==> Get(b, m.from) == Searching(me) && IsLegal(b, m.from, m.to)
    ensures NodeMoves(Copy(b), if me == Black then -1 else 1) != []
            <==> exists from, to :: Get(b, from) == Searching(me) && IsLegal(b, from, to)
  {
    var c := Copy(b);
    var side := Searching(me);
    forall m
      ensures m in NodeMoves(c, if me == Black then -1 else 1) <==> Get(b, m.from) == side && IsLegal(b, m.from, m.to)
    {
      LegalMovesComplete(c, side, m);
      CopyKeepsLegality(b, m);
    }
    ListedIffExists(c, side);
    forall from, to
      ensures IsLegal(c, from, to) == IsLegal(b, from, to)
    {
      CopyKeepsLegality(b, Move(from, to));
    }
  }

  /** The depth the root search should use: `maxDepth` of the game's
      board, which grows with the number of moves played. */
  function SearchDepth(b: Board): (r: nat)
    ensures r >= 2
    ensures MoveCount(b) > 5 ==> r > 2
  {
    MaxDepth(b)
  }

  /** The depth `AI.findMove()` actually uses: `maxDepth` of the fresh
      copy, whose move count is always 0. */
  function SearchDepthAsWritten(b: Board): (r: nat)
    ensures r >= 2
  {
    MaxDepth(Copy(b))
  }

  /** As written, the depth never depends on the game: it is always 2,
      however many moves have been played. */
  lemma SearchDepthAsWrittenIsConstant(b: Board)
    ensures SearchDepthAsWritten(b) == 2
    ensures MoveCount(b) > 5 ==> SearchDepthAsWritten(b) < SearchDepth(b)
  {
  }

  /** The root call of `AI.findMove()` at `depth`: a search from a copy
      of `b` with recording on and the full window. It returns a legal move
      of the side searched exactly when that side has one. */
  function RootSearch(b: Board, me: Piece, depth: nat): (r: Option<Move>)
    requires me != Empty
    ensures r.Some? ==> Get(b, r.value.from) == Searching(me) && IsLegal(b, r.value.from, r.value.to)
    ensures depth > 0 ==>
              (r.Some? <==> exists from, to :: Get(b, from) == Searching(me) && IsLegal(b, from, to))
  {
    RootMoves(b, me);
    var sense := if me == Black then -1 else 1;
    if depth == 0 then None
    else Search(Copy(b), depth, true, sense, -INFTY, INFTY, None, me).recorded
  }

  /** `AI.findMove()` with the root depth taken from the game's board. It
      returns no move for a player with no piece, and otherwise a legal
      move of the side searched whenever that side has one. */
  function ChooseMove(b: Board, me: Piece): (r: Option<Move>)
    ensures me == Empty ==> r.None?
    ensures r.Some? ==> Get(b, r.value.from) == Searching(me) && IsLegal(b, r.value.from, r.value.to)
    ensures me != Empty ==>
              (r.Some? <==> exists from, to :: Get(b, from) == Searching(me) && IsLegal(b, from, to))
  {
    if me == Empty then None else RootSearch(b, me, SearchDepth(b))
  }

  // ---------------------------------------------------------------------
  // The search as written

  /** The exception `findMove` can end in: the `NullPointerException` of
      `staticScore` on a board whose KING is on the top row. */
  datatype Fault = NullPointer

  /** `findMove` as written, on `StaticScoreAsWritten`: `None` when a leaf
      it visits throws, which ends the whole search. */
  function SearchAsWritten(b: Board, depth: nat, save: bool, sense: int, alpha: int, beta: int,
                           rec: Option<Move>, me: Piece): (r: Option<Outcome>)
    ensures depth == 0 ==> (r.None? <==> StaticScoreAsWritten(b, me).None?)
    ensures r.Some? ==> (depth == 0 ==> ScoreDefined(b))
    ensures r.Some? ==> r.value == Search(b, depth, save, sense, alpha, beta, rec, me)
    decreases depth, 1
  {
    if depth == 0 then
      var v := StaticScoreAsWritten(b, me);
      if v.None? then None else Some(Outcome(v.value, rec))
    else
      var maximizing := sense == 1;
      var init := if maximizing then -INFTY else INFTY;
      var moves := NodeMoves(b, sense);
      var s := ScanAsWritten(b, moves, Children(b, moves), depth, save, maximizing, Frame(init, alpha, beta, rec), me);
      if s.None? then None else Some(Outcome(s.value.value, s.value.recorded))
  }

  /** `ChildValue` as written: `None` when the child's search throws. */
  function ChildValueAsWritten(child: Board, depth: nat, maximizing: bool, fr: Frame, me: Piece): (r: Option<int>)
    requires depth >= 1
    ensures r.None? <==>
              SearchAsWritten(child, depth - 1, false, if maximizing then -1 else 1, fr.alpha, fr.beta, fr.recorded, me).None?
    ensures r.Some? && ScoreDefined(child) ==> r.value == ChildValue(child, depth, maximizing, fr, me)
    decreases depth, 0, 0
  {
    var o := SearchAsWritten(child, depth - 1, false, if maximizing then -1 else 1, fr.alpha, fr.beta, fr.recorded, me);
    if o.None? then None else Some(o.value.value)
  }

  /** `Scan` as written: a child whose search throws ends the loop, before
      the winner and window tests. */
  function ScanAsWritten(b: Board, moves: seq<Move>, children: seq<Board>, depth: nat, save: bool,
                         maximizing: bool, fr: Frame, me: Piece): (r: Option<ScanResult>)
    requires depth >= 1 && |children| == |moves|
    ensures moves == [] ==> r.Some?
    ensures moves != [] && ChildValueAsWritten(children[0], depth, maximizing, fr, me).None? ==> r.None?
    ensures r.Some? && (forall c | c in children :: ScoreDefined(c)) && -INFTY <= fr.best <= INFTY ==>
              r.value == Scan(b, moves, children, depth, save, maximizing, fr, me)
    decreases depth, 0, |moves|
  {
    if moves == [] then Some(ScanResult(fr.best, fr.recorded, []))
    else
      var child := ChildValueAsWritten(children[0], depth, maximizing, fr, me);
      if child.None? then None
      else
        var eval := child.value;
        var fr1 := Absorb(fr, eval, moves[0], save, maximizing);
        if b.winner == Some(White) then Some(ScanResult(WINNING_VALUE, fr1.recorded, [eval]))
        else if b.winner == Some(Black) then Some(ScanResult(-WINNING_VALUE, fr1.recorded, [eval]))
        else if Cut(fr1) then Some(ScanResult(fr1.best, fr1.recorded, [eval]))
        else
          assert forall c | c in children[1..] :: c in children;
          var rest := ScanAsWritten(b, moves[1..], children[1..], depth, save, maximizing, fr1, me);
          if rest.None? then None else Some(ScanResult(rest.value.value, rest.value.recorded, [eval] + rest.value.evals))
  }

  /** `AI.findMove()` as written: the search starts from a copy of `b` at
      `maxDepth` of the copy, which is always 2, and fails with
      `NullPointer` when a leaf it visits has the KING on the top row. When
      it does not fail it returns what the corrected search at depth 2
      returns, which is a legal move of the side searched whenever that
      side has one. */
  function ChooseMoveAsWritten(b: Board, me: Piece): (r: Result<Option<Move>, Fault>)
    ensures me == Empty ==> r == Success(None)
    ensures me != Empty && r.Success? ==> r.value == RootSearch(b, me, 2)
    ensures r.Success? && r.value.Some? ==>
              Get(b, r.value.value.from) == Searching(me) && IsLegal(b, r.value.value.from, r.value.value.to)
    ensures me != Empty && r.Success? ==>
              (r.value.Some? <==> exists from, to :: Get(b, from) == Searching(me) && IsLegal(b, from, to))
  {
    if me == Empty then Success(None)
    else
      var sense := if me == Black then -1 else 1;
      SearchDepthAsWrittenIsConstant(b);
      var o := SearchAsWritten(Copy(b), SearchDepthAsWritten(b), true, sense, -INFTY, INFTY, None, me);
      if o.None? then Failure(NullPointer) else Success(o.value.recorded)
  }

  /** The first leaf the search reaches, after the first listed move of
      the side searched and the first listed reply, cannot be scored. */
  predicate FirstLeafThrows(b: Board, me: Piece)
  {
    var sense := if me == Black then -1 else 1;
    var root := NodeMoves(Copy(b), sense);
    root != [] &&
    var c := FirstChild(Copy(b), root);
    var replies := NodeMoves(c, -sense);
    replies != [] && StaticScoreAsWritten(FirstChild(c, replies), me).None?
  }

  /** The child for the first of a node's legal moves. */
  function FirstChild(b: Board, moves: seq<Move>): (r: Board)
    requires moves != [] && forall m | m in moves :: IsLegal(b, m.from, m.to)
    ensures r == Children(b, moves)[0]
  {
    assert moves[0] in moves;
    Child(b, moves[0])
  }

  /** The search as written fails as soon as the first leaf it reaches
      throws: the board after the first listed move of the side searched
      and the first listed reply. */
  lemma FirstLeafCrashes(b: Board, me: Piece)
    requires me != Empty && FirstLeafThrows(b, me)
    ensures ChooseMoveAsWritten(b, me).Failure?
  {
    var sense := if me == Black then -1 else 1;
    var root := NodeMoves(Copy(b), sense);
    var c := FirstChild(Copy(b), root);
    FirstReplyCrashes(c, -sense, -INFTY, INFTY, None, me);
    SearchDepthAsWrittenIsConstant(b);
  }

  /** A node one ply above the leaves fails when the board after its first
      listed move throws, whatever the window. */
  lemma FirstReplyCrashes(c: Board, sense: int, alpha: int, beta: int, rec: Option<Move>, me: Piece)
    requires NodeMoves(c, sense) != []
    requires StaticScoreAsWritten(FirstChild(c, NodeMoves(c, sense)), me).None?
    ensures SearchAsWritten(c, 1, false, sense, alpha, beta, rec, me).None?
  {
  }
}
