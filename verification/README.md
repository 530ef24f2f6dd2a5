# Tablut board and search engine in Dafny

This project models the rules engine and the move search of a Tablut
program. Tablut is played on a 9x9 board by the attackers (BLACK, who move
first) and the defenders (WHITE plus the KING). The model covers the
`Board` class of `tablut/Board.java`:

- the initial layout, copies and the move limit;
- reading and writing squares, and locating the KING;
- the legality of a move;
- `makeMove`, with all of its capture rules (`throne`, `throneEmpty`,
  `possibleremove` and `capture`), the win tests and repetition detection;
- `undo`, move generation and the position encoding.

It also covers the search of `tablut/AI.java`: minimax with alpha-beta
pruning over board copies, the depth schedule, and the static evaluation
with its helpers.

All state is immutable. A `Board` value holds:

- the grid, as 81 squares in row-major order (index `row * 9 + col`);
- the side to move and the winner, if any;
- the `repeated` flag;
- the set of layouts seen so far;
- the list of moves played;
- the piece taken by the last capture, which is all that `undo` can
  observe of the source's two undo stacks;
- the move limit.

Each mutating method of the source is a function from board to board. The
capture rules read the grid as the earlier rules left it. So `makeMove` is
the composition of four steps: relocating the piece, the capture rules in
the source's order, the win tests, and the repetition check. All of these
steps share one invariant, `Captures.CaptureStep`:

- captures only empty squares;
- the mover's own pieces survive;
- BLACK is the only winner a capture can declare, and only by taking the
  KING;
- the capture flag is set whenever the grid changes.

`Square`, `Piece` and `Move` are not part of this model. Their behaviour is
reconstructed from their use in the two core files:

- `rookMove` with directions 0 to 3 meaning north (row + 1), east, south
  and west, returning nothing off the board;
- `between` as the midpoint of two squares, rounded down;
- `isEdge` as the perimeter;
- `opponent`;
- distinct characters per piece for the encoding.

Where the code departs from the rules of Tablut as usually stated, the
model follows the code:

- The KING wins only by reaching one of the four corners, not any edge
  square (`tablut/Board.java:302-309`). The edge appears only in the
  evaluator's "one step from the edge" case.
- A repeated layout makes the side that just moved lose. The winner
  becomes the opponent of the side on move, computed before the turn
  passes (`tablut/Board.java:158-166`, `tablut/Board.java:311-312`).
- `undo` does not restore the turn, the winner or the set of seen
  layouts. It also gives back only the last captured piece.
- `legalMoves(WHITE)` does not list KING moves, because `pieceLocations`
  matches exactly. Moves are listed only for the side on move.
- The move limit is stored but never consulted.
- With the throne empty, the square midway between the throne and the
  square moved to (the destination in `throneEmpty`, the far candidate
  square in `capture`) is hostile to the side not on move. A piece of that
  side standing there is removed with no piece of the mover beyond it, and
  the square need not be next to the piece that moved. For example, WHITE
  moving to h1 takes a BLACK piece on f3 (`tablut/Board.java:402-411`,
  `tablut/Board.java:487-492`; `tablut/UnitTest.java:264-285` plays such a
  capture). `Captures.ThroneMidpointCapture` states it for every move.
- The KING on the throne counts as a defender when WHITE flanks a BLACK
  piece against it, unless all four throne neighbours are BLACK
  (`tablut/Board.java:456-462`).

The search is modelled twice. `Search.Search` is the search the program
evidently intends, with the corrected evaluation. `Search.SearchAsWritten`
is the search as the code stands. It fails with `Fault.NullPointer` as
soon as a leaf it visits throws in `staticScore`. When it does not fail,
it returns what the corrected search returns.

## Model

| member | source | states |
|---|---|---|
| Boards.Put | tablut/Board.java:205-207 | `put` sets the given square to the piece; every other square keeps its contents |
| Boards.KingPosition | tablut/Board.java:175-185 | the square returned holds the KING and no later square in scan order holds one; there is no result exactly when no KING is on the board |
| Boards.UniqueKingPosition | tablut/Board.java:175-185 | with at most one KING, a square holds the KING exactly when `kingPosition` returns it |
| Boards.Init | tablut/Board.java:64-128 | a board built by `Board()` (lines 64-66), which runs `init` (lines 98-128) on fresh fields, has the KING on the throne and only one KING, BLACK to move, no winner and no history; it also has no repeat, no captured piece and a move limit of 0, the Java defaults of those fields, which `init` itself does not reset |
| Boards.InitialAt | tablut/Board.java:31-59 | every square of the initial board holds the piece the initial attacker, defender and empty lists give it |
| Boards.InitialListsCover | tablut/Board.java:31-59 | every square other than the throne is in one of the three initial lists |
| Boards.InitialSamples | tablut/UnitTest.java:27-40 | in the initial position d5 is WHITE, f9 BLACK, e5 the KING and d3 empty, and the KING cannot move north to e9 through its own defender |
| Boards.Copy | tablut/Board.java:74-95 | a copy keeps grid, turn and limit, and starts with no moves, no winner, no repeat, no seen layouts and no capture |
| Boards.EncodedBoard | tablut/Board.java:621-628 | the encoding is 82 characters: the side to move, then one character per square in index order |
| Boards.LayoutDeterminesGrid | tablut/Board.java:158-166 | two encodings with the turn character dropped are equal exactly when the grids are equal, so a repeat means a repeated grid |
| Boards.EncodingIgnoresHistory | tablut/Board.java:621-628 | on the same grid, two boards encode equally exactly when the same side is to move |
| Boards.IsUnblockedMove | tablut/Board.java:224-243 | true exactly when `from` and `to` are distinct squares on one line and every square strictly between them is empty |
| Boards.UnblockedMeansClear | tablut/Board.java:232-239 | the step-by-step walk of the loop finds empty squares exactly when every square strictly between is empty |
| Boards.IsLegal | tablut/Board.java:251-273 | a move is legal exactly when it is an unblocked rook move onto an empty square, only the KING may enter the throne, and the piece moved belongs to the side on move (the KING moving for WHITE) |
| Boards.SetMoveLimit | tablut/Board.java:131-138 | intended behaviour: the call fails exactly when twice the limit does not exceed the move count; otherwise only the limit changes |
| Boards.SetMoveLimitAsWritten | tablut/Board.java:131-138 | the code as written fails exactly when twice the limit, wrapped to 32 bits, does not exceed the move count |
| Boards.SetMoveLimitAgreesBelowOverflow | tablut/Board.java:133-137 | with limits below 2^30 in magnitude the code as written and the intended behaviour agree |
| Boards.SetMoveLimitOverflowExample | tablut/Board.java:133-137 | a limit of 2^30 on the initial board is rejected as written, because `2 * n` wraps to a negative number, and accepted as intended |
| Boards.PutByName | tablut/Board.java:217-219 | `put(p, col, row)` writes the square whose column is the letter and whose row is the digit |
| Boards.GetByNameAsWritten | tablut/Board.java:200-202 | `get(col, row)` as written reads the square whose column comes from the digit and whose row comes from the letter |
| Boards.GetByNameAfterPut | tablut/Board.java:200-202 | the corrected `get(col, row)` reads back what `put(p, col, row)` wrote, for every square name |
| Boards.GetByNameTransposes | tablut/Board.java:200-202 | after WHITE is put on a2 of the initial board, `get('a', '2')` as written returns EMPTY, because it reads b1 |
| Geometry.RookMove | tablut/Board.java:424-439 | a rook step exists exactly when it stays on the board; north adds the distance to the row, south subtracts it, east adds it to the column and west subtracts it, and the other coordinate is unchanged |
| Geometry.Direction | tablut/Board.java:226-227 | for a rook move, stepping the move's length in its direction reaches the destination |
| Geometry.BetweenIsMidpoint | tablut/Board.java:440-462 | for a square two steps away, `between` is the square one step away |
| Geometry.StepsAreBetween | tablut/Board.java:232-239 | every square the loop visits before reaching `to` lies strictly between `from` and `to` |
| Geometry.BetweenIsStep | tablut/Board.java:232-239 | every square strictly between `from` and `to` is visited by the loop |
| Geometry.ThroneNeighbour | tablut/Board.java:24-29 | the four throne neighbours are the single rook steps from the throne |
| Pieces.PieceCharInjective | tablut/Board.java:621-628 | distinct pieces encode to distinct characters |
| Captures.CaptureStepTrans | tablut/Board.java:280-313 | capture steps compose: running one rule after another keeps the shared invariant |
| Captures.TakeKing | tablut/Board.java:352-357 | taking the KING declares BLACK the winner and leaves no KING when there was only one |
| Captures.SurroundCapture | tablut/Board.java:352-357 | a KING on the throne with four BLACK neighbours is taken and BLACK wins; otherwise the board is unchanged |
| Captures.ThroneFlank | tablut/Board.java:324-351 | when the throne neighbour in the given direction is WHITE, the other three BLACK, a BLACK piece stands on `to` and WHITE stands midway between that neighbour and `to`, exactly that WHITE piece is removed; otherwise the board is unchanged; the KING and the winner are never touched |
| Captures.ThroneFlanksExclusive | tablut/Board.java:324-351 | at most one of the four flank cases applies to a board |
| Captures.ThroneFlanksEffect | tablut/Board.java:324-351 | running the flank cases empties the midpoint of every case that applies, and changes nothing when none does |
| Captures.ThroneRule | tablut/Board.java:322-359 | without the KING on the throne `throne` changes nothing; with it, every applying flank case has its WHITE piece removed, a surrounded KING is taken and BLACK wins, and with no flank case and no surround the board is unchanged |
| Captures.KingBesideThrone | tablut/Board.java:366-401 | when the KING stands beside the empty throne with BLACK beyond it and on both its sides, exactly the KING's square is emptied and BLACK, the side on move, wins; otherwise the board is unchanged |
| Captures.KingTrapPersists | tablut/Board.java:366-401 | taking the KING of one trap leaves any other applying trap in place |
| Captures.KingTraps | tablut/Board.java:366-401 | the four traps only ever remove KINGs |
| Captures.KingTrapsEffect | tablut/Board.java:366-401 | the traps take the KING of every trap that applies and make BLACK the winner, and change nothing when none applies |
| Captures.BlackOnEmptyThrone | tablut/Board.java:365-406 | with BLACK on move, every applying trap has its KING taken and BLACK wins, a WHITE piece midway between the throne and `to` is removed, and otherwise the board is unchanged |
| Captures.WhiteOnEmptyThrone | tablut/Board.java:407-412 | with WHITE on move, a BLACK piece midway between the throne and `to` is removed, wherever it stands; otherwise the board is unchanged |
| Captures.ThroneEmptyRule | tablut/Board.java:363-414 | with the throne occupied `throneEmpty` changes nothing; with it empty, the piece of the side not on move midway between the throne and `to` is removed, with BLACK on move every trapped KING beside the throne is taken and BLACK wins, and when neither applies the board is unchanged |
| Captures.Targets | tablut/Board.java:424-439 | every square two rook steps from `to` that is on the board is a candidate |
| Captures.KingBetween | tablut/Board.java:441-449 | when the KING between two BLACK pieces is taken, its square is empty and BLACK wins; otherwise the board is unchanged |
| Captures.OrdinarySandwich | tablut/Board.java:450-455 | an opponent piece between two pieces of the mover is removed; otherwise the board is unchanged |
| Captures.DefenderSandwich | tablut/Board.java:456-462 | a BLACK piece between two defenders (WHITE or KING) is removed; otherwise the board is unchanged |
| Captures.PossibleRemove | tablut/Board.java:419-465 | `possibleremove` keeps the capture invariant and returns only candidate squares |
| Captures.EmptyThroneCapture | tablut/Board.java:487-502 | a piece of the side not on move midway between the throne and `sq2` is removed; with no KING beside the throne, the KING between `to` and `sq2` with BLACK read on both on entry is taken and BLACK wins; otherwise the board is unchanged |
| Captures.StaleSandwich | tablut/Board.java:469-486 | a surrounded KING on the throne is taken and BLACK wins; when the pieces read on entry were the mover's on `to` and `sq2` and the opponent's between, the square between is emptied; otherwise the board is unchanged; a BLACK piece that has just moved is never removed |
| Captures.CaptureAt | tablut/Board.java:468-503 | `capture` takes a surrounded KING on the throne, empties the square between `to` and `sq2` when the entry values form a sandwich, and with the throne empty removes the opponent piece midway between the throne and `sq2` and takes a KING between two BLACK pieces when no KING is beside the throne; when none of these applies the board is unchanged |
| Captures.ResolveCaptures | tablut/Board.java:287-298 | all capture processing of `makeMove` keeps the capture invariant |
| Captures.FlankedPersists | tablut/Board.java:450-462 | a square flanked by the mover stays flanked through any capture step |
| Captures.PossibleRemoveClears | tablut/Board.java:440-462 | after `possibleremove`, every flanked candidate's middle square is empty |
| Captures.SandwichCapture | tablut/Board.java:287-298 | a piece sandwiched between the moved piece and another piece of the mover is gone after `makeMove`'s capture processing, and so is a BLACK piece between two defenders, the KING on the throne included unless it is surrounded |
| Captures.KingOnThroneFlanks | tablut/Board.java:456-462 | WHITE moving to e7 takes a BLACK piece on e6 against the KING on an unsurrounded throne |
| Captures.SurroundedKingTaken | tablut/Board.java:352-357 | with the KING on the throne and four BLACK neighbours, `possibleremove` takes the KING and declares BLACK the winner |
| Captures.ThroneSurroundCapture | tablut/Board.java:287-301 | a KING surrounded on the throne is gone after capture processing and BLACK has won |
| Captures.ThroneTrapCapture | tablut/Board.java:287-301 | with BLACK on move and the throne empty, a trapped KING beside the throne is gone after capture processing and BLACK has won |
| Captures.ThroneMidpointCapture | tablut/Board.java:287-298 | with the throne empty, a piece of the side not on move midway between the throne and the destination is gone after capture processing, wherever the destination is |
| Captures.FarMidpointExample | tablut/Board.java:407-412 | with the throne empty, WHITE moving to h1 takes a BLACK piece on f3, two files and two ranks away |
| Play.Relocate | tablut/Board.java:282-285 | the moving piece lands on `to`, `from` becomes empty, no other square changes, and the move is appended to the history |
| Play.RecordPosition | tablut/Board.java:158-166 | a layout seen before sets the repeat flag and makes the opponent of the side on move the winner; the layout is recorded |
| Play.MakeMove | tablut/Board.java:280-313 | a legal move adds one move, passes the turn, empties `from`, only clears squares beyond the relocation, declares a winner when no KING is left, and records the layout, flagging a repeat exactly when it was seen before |
| Play.RelocateKeepsOneKing | tablut/Board.java:282-285 | relocation never creates a second KING |
| Play.MoverSurvives | tablut/Board.java:280-298 | a piece of the side on move is never taken by its own move |
| Play.KingMoveIsSafe | tablut/Board.java:280-298 | a KING moving anywhere but the throne is never taken by its own move |
| Play.MakeMoveKeepsOneKing | tablut/Board.java:280-313 | a move never leaves more than one KING |
| Play.NoKingMeansBlackWins | tablut/Board.java:299-301 | a move that leaves no KING on a new layout makes BLACK the winner |
| Play.CornerWin | tablut/Board.java:302-309 | on a new layout with the KING present and no winner before, WHITE wins exactly when the KING is on a corner, and otherwise nobody has won |
| Play.RepeatAfterReturn | tablut/Board.java:158-166 | a later move that recreates a layout recorded earlier in the history makes the position a repeat, won by the opponent of the side that made it |
| Play.Undo | tablut/Board.java:506-532 | with no moves `undo` changes nothing; otherwise one move is removed and the repeat flag cleared, while turn, winner and seen layouts stay |
| Play.UndoRelocation | tablut/Board.java:515-532 | undoing a relocation onto an empty square restores the grid and history |
| Play.UndoQuietMove | tablut/Board.java:515-532 | after a move without captures, `undo` restores the grid, history and move count and clears the repeat flag, but leaves the turn passed |
| Play.UndoRestoresLastCapture | tablut/Board.java:515-532 | after a capturing move, `undo` puts the last captured piece back on its square |
| MoveGen.PieceLocations | tablut/Board.java:606-617 | exactly the squares holding the given piece are listed, each once, in index order |
| MoveGen.RowMovesComplete | tablut/Board.java:549-553 | every legal destination along the row is listed |
| MoveGen.ColumnMovesComplete | tablut/Board.java:554-558 | every legal destination along the column is listed |
| MoveGen.MovesFrom | tablut/Board.java:547-559 | the moves from a square are exactly its legal moves |
| MoveGen.MovesFromAll | tablut/Board.java:545-559 | over a list of squares, exactly the legal moves starting on them are listed |
| MoveGen.LegalMovesComplete | tablut/Board.java:545-564 | a move is listed for a side exactly when it starts on a square of that side and is legal |
| MoveGen.OffTurnHasNoMoves | tablut/Board.java:545-564 | a side not on move has no listed moves |
| MoveGen.LegalMovesQuery | tablut/Board.java:560-563 | an empty list makes the opponent of the side on move the winner; otherwise the board is unchanged |
| MoveGen.ListedIffExists | tablut/Board.java:545-564 | the list is non-empty exactly when the side has a legal move |
| MoveGen.HasMove | tablut/Board.java:567-572 | `hasMove` is true exactly when the side has a legal move |
| Evaluation.ConstantsOrdered | tablut/AI.java:16-21 | 0 < WILL_WIN_VALUE < WINNING_VALUE < INFTY = 2^31 - 1 |
| Evaluation.MaxDepth | tablut/AI.java:133-145 | the depth is one of 2, 5, 7 and 10 |
| Evaluation.MaxDepthSchedule | tablut/AI.java:133-145 | the depth is 2 up to move 5, 5 up to 10, 7 up to 15 and 10 beyond, and it never decreases with the move count |
| Evaluation.ISqrt | tablut/AI.java:152-155 | the integer square root is the largest integer whose square does not exceed the argument |
| Evaluation.EuclidDistance | tablut/AI.java:152-155 | the distance is the integer square root of the sum of the squared row and column differences (its square is at most that sum, and the next integer's square exceeds it), so it is 0 exactly between equal squares |
| Evaluation.CornerDistance | tablut/AI.java:187-199 | the result is the least of the four corner distances, and 0 exactly on a corner |
| Evaluation.CheckSquareBlack | tablut/AI.java:160-166 | 1 exactly when the square exists and holds BLACK, else 0 |
| Evaluation.CountBlack | tablut/AI.java:203-216 | the sum over a list of squares is the number of positions in the list whose square exists and holds BLACK; it is 0 exactly when there are none and the list's length exactly when all are |
| Evaluation.KingNeighbours | tablut/AI.java:203-216 | the count is the number of the eight neighbours of the KING that exist and hold BLACK, between 0 and 8; it is 0 exactly when no neighbour holds BLACK and 8 exactly when all eight exist and hold BLACK |
| Evaluation.InteriorNeighbourhood | tablut/AI.java:175-179 | a KING not one step from the edge has all eight neighbours on the board |
| Evaluation.StaticScore | tablut/AI.java:169-224 | a decided board scores plus or minus WINNING_VALUE by its winner, and every score lies within plus or minus WINNING_VALUE |
| Evaluation.HeuristicBounded | tablut/AI.java:218-222 | the weighted formula stays within plus or minus 5000 |
| Evaluation.StaticScoreCases | tablut/AI.java:175-222 | an undecided board scores WILL_WIN_VALUE one step from the edge, else plus or minus WINNING_VALUE against the program on a repeat, else the formula, strictly inside plus or minus WILL_WIN_VALUE |
| Evaluation.HeuristicByMover | tablut/AI.java:200-222 | the formula is 27 - 3 x corner distance - 3 x BLACK neighbours plus (WHITE to move) or minus (BLACK to move) twice the mover's move count |
| Evaluation.StaticScoreAsWritten | tablut/AI.java:169-199 | the code as written fails exactly when there is no winner and either no KING or the KING is on row 8; when it does not fail it gives the corrected score |
| Evaluation.StaticScoreTopRowExample | tablut/AI.java:175-179 | a KING on e9 with no winner crashes the code as written; the intended score is WILL_WIN_VALUE |
| Search.Child | tablut/AI.java:83-85 | the child of a legal move is a fresh copy after that move: one move played, the turn passed, and it can be scored |
| Search.Children | tablut/AI.java:82-85 | the children match the moves one to one and in order |
| Search.Search | tablut/AI.java:74-129 | the value lies within plus or minus INFTY; a move is recorded only at the root, only from the node's legal moves, and always when the root has a move |
| Search.Scan | tablut/AI.java:82-102 | the loop evaluates children only when there are moves, never more than there are, and records only moves from the list |
| Search.ReplaySnoc | tablut/AI.java:86-91 | absorbing one more child value extends the fold by one step |
| Search.ScanIsReplay | tablut/AI.java:82-102 | the node's value and recorded move are those of folding the loop body over the child values computed, and stopping early means the window closed |
| Search.ScanStopsAtFirstCut | tablut/AI.java:98-100 | the loop does not stop before the window first closes |
| Search.ScanEvaluatesInOrder | tablut/AI.java:82-87 | each child is searched with the window left by the children before it |
| Search.WinnerExitsEarly | tablut/AI.java:92-97 | on a board already won, the node returns the winner's value after its first child |
| Search.NoMovesValue | tablut/AI.java:80-81 | a node without moves returns minus INFTY when maximizing and INFTY when minimizing, and records nothing |
| Search.DepthZeroIsStatic | tablut/AI.java:76-77 | at depth 0 the value is the static score and nothing is recorded |
| Search.ReplayBounds | tablut/AI.java:86-87 | the running best bounds every child value, moves only towards them, and equals one of them or the initial value; the window only narrows |
| Search.AlphaMonotone | tablut/AI.java:86-87 | alpha never decreases along the loop, and beta never increases |
| Search.ReplaySplit | tablut/AI.java:82-102 | folding the loop body over a prefix and then the rest is folding it over the whole |
| Search.ReplayRecordsLastBest | tablut/AI.java:88-91 | the recorded move is the last one whose value equals the final best |
| Search.RootRecordsLastBest | tablut/AI.java:74-129 | at the root the recorded move is the last move reaching the returned value |
| Search.Searching | tablut/AI.java:55-58 | the program searches for WHITE when it plays WHITE or the KING, and for BLACK otherwise |
| Search.RootMoves | tablut/AI.java:53-58 | the root's moves are exactly the legal moves of the side searched for |
| Search.SearchDepth | tablut/AI.java:53-58 | the intended depth is at least 2 and grows past 2 after move 5 |
| Search.SearchDepthAsWritten | tablut/AI.java:53-58 | the depth as written is at least 2 |
| Search.SearchDepthAsWrittenIsConstant | tablut/AI.java:53-58 | the depth as written is always 2, shallower than intended after move 5 |
| Search.RootSearch | tablut/AI.java:53-62 | at a positive depth the root search finds a move exactly when the side searched for has a legal move, and the move found is a legal move of that side |
| Search.ChooseMove | tablut/AI.java:53-62 | no move for a player with no piece; otherwise a move is found exactly when the side searched for has a legal move, and the move found is a legal move of that side |
| Search.SearchAsWritten | tablut/AI.java:74-129 | the search as written fails at depth 0 exactly when the static score as written fails, and when it does not fail it returns what the corrected search returns |
| Search.ChildValueAsWritten | tablut/AI.java:83-85 | a child's value as written fails exactly when the child's search fails, and otherwise is the corrected child value |
| Search.ScanAsWritten | tablut/AI.java:82-102 | the loop as written never fails without moves, fails when its first child fails, and when it does not fail it computes what the corrected loop computes |
| Search.ChooseMoveAsWritten | tablut/AI.java:53-62 | as written, the search either fails with a null pointer or returns the corrected root search at depth 2, which is a legal move of the side searched for exactly when that side has one |
| Search.FirstReplyCrashes | tablut/AI.java:74-102 | a node one ply above the leaves fails when the board after its first listed move cannot be scored as written |
| Search.FirstLeafCrashes | tablut/AI.java:74-129 | when the first leaf the search reaches (the first listed reply to the first listed move) has a KING the score as written cannot handle, the whole search as written fails |

## Left out

- The board display (`BoardWidget.java`), `toString`, the players, the
  controller and command parsing are outside the core.
- `Square.java`, `Piece.java` and `Move.java` are not part of this model.
  Their operations are reconstructed as described above.
- The undo stacks are reduced to the last captured piece. This is all that
  `undo` reads. The stacks that a copy shares with its original (aliasing)
  and `clearUndo` are not modelled.
- `pieceLocations` returns a hash set in the source. Here the squares come
  in index order. This fixes the order of `legalMoves`, and so the search
  order and which of several equal moves is recorded.
- `legalMoves` has a side effect: when its list is empty, it sets the
  winner. This effect is modelled in `MoveGen.LegalMovesQuery` but not
  inside the search and the evaluation. There it only touches a node or
  leaf board after that board's value is fixed, and the board is then
  discarded.
- The move limit is stored and copied but never enforced. The source does
  not enforce it either.
- Evaluation.EuclidDistance: `Math.sqrt` on doubles followed by a cast to
  `int` is modelled as the exact integer square root. The two agree for
  all squares of a 9x9 board, but nothing about floating point is proved.
- Play.MakeMove: requires the move to be legal, as the source's `assert`
  does.
- Evaluation.StaticScore: requires a winner or a KING on the board,
  because the code reads the KING's position. Every board the search
  scores meets this requirement (`Search.Child`). The crash for a KING on
  row 8 is corrected rather than required away; see Findings.
- Search.Search: `_lastFoundMove` is a field of the player. It is modelled
  as a value threaded through the search and returned with the score.
- The concrete opening scenarios (moving the attacker from e2 to h2, then
  a defender, or taking the first move back) are not stated as examples.
  Only their general forms are, through `Play.Relocate`, `Play.MakeMove`
  and `Play.UndoQuietMove`.

## Findings

| source | as written | input that shows it | evidently intended | confidence | as-written member | corrected member |
|---|---|---|---|---|---|---|
| tablut/Board.java:200-202 | `get(col, row)` calls `get(row - '1', col - 'a')`, which swaps column and row | put WHITE on a2 of the initial board; `get('a', '2')` reads b1 and returns EMPTY | `get(col - 'a', row - '1')`, matching `put(p, col, row)` | not executed | Boards.GetByNameAsWritten, Boards.GetByNameTransposes | Boards.GetByNameAfterPut |
| tablut/AI.java:53-58 | `findMove()` passes `maxDepth(b)` for the fresh copy `b`, whose move count is always 0 | any position after move 5, where `maxDepth(board())` is 5 or more but the search runs at depth 2 | the depth computed from the game board being played | not executed | Search.ChooseMoveAsWritten, Search.SearchDepthAsWrittenIsConstant | Search.ChooseMove |
| tablut/Board.java:133-137 | `2 * n <= _moveCount` is evaluated in 32-bit `int` | `setMoveLimit(1073741824)` on the initial board: `2 * n` wraps to -2^31 and the call is rejected | reject exactly when twice the limit does not exceed the move count | not executed | Boards.SetMoveLimitAsWritten, Boards.SetMoveLimitOverflowExample | Boards.SetMoveLimit |
| tablut/AI.java:175-179 | `kingPos.rookMove(d, 1).isEdge()` is called on all four neighbours, and `rookMove` returns null off the board | the KING on e9 (row 8, not a corner) with no winner: the north step is null and the call throws | the KING one step from the edge scores WILL_WIN_VALUE | not executed | Evaluation.StaticScoreAsWritten, Evaluation.StaticScoreTopRowExample, Search.FirstLeafCrashes | Evaluation.StaticScore |
