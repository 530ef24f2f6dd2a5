/** The contents of a square. The `Piece` enum is not part of this model;
    its assumed behaviour: `opponent()` maps WHITE to BLACK and BLACK to
    WHITE (only ever applied to the side to move), and the first character
    of each piece's text is distinct, so the position encoding determines
    the board. */
module Pieces {

  datatype Piece = Empty | White | Black | King

  /** A side that can be on move. */
  type Side = p: Piece | p == White || p == Black witness Black

  function Opp(s: Side): (r: Side)
    ensures r != s
  {
    if s == White then Black else White
  }

  /** The defending side: a WHITE piece or the KING. */
  predicate IsDefender(p: Piece)
  {
    p == White || p == King
  }

  /** First character of the piece's text, used by the position encoding. */
  function PieceChar(p: Piece): char
  {
    match p
    case Empty => '-'
    case White => 'W'
    case Black => 'B'
    case King => 'K'
  }

  lemma PieceCharInjective(p: Piece, q: Piece)
    ensures PieceChar(p) == PieceChar(q) <==> p == q
  {
  }
}
