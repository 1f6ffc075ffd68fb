/** Pieces of the game: a colour, a type and the "has moved" flag that the pawn
    rule consults. Pieces are values here; the only mutation of ChessPiece,
    setHasMoved, becomes a function returning the updated piece. */
module ChessPiece {

  /** A cell of the board holds zero or one piece. */
  datatype Option<+T> = None | Some(value: T)

  datatype Color = White | Black

  /** The six standard types plus the two variant pieces CANNON and ALFIL. */
  datatype PieceType = Pawn | Rook | Knight | Bishop | Queen | King | Cannon | Alfil

  datatype Piece = Piece(color: Color, kind: PieceType, hasMoved: bool)

  /** The other side. isChecked computes it on player indices as (color + 1) % 2,
      with index 0 for WHITE and 1 for BLACK. */
  function Opponent(c: Color): (r: Color)
    ensures r != c
  {
    if c == White then Black else White
  }

  /** The constructor: the given colour and type, not yet moved. */
  function NewPiece(color: Color, kind: PieceType): (p: Piece)
    ensures p.color == color && p.kind == kind
    ensures !p.hasMoved
  {
    Piece(color, kind, false)
  }

  /** setHasMoved: afterwards the flag reads back as the argument, and colour
      and type are untouched. */
  function SetHasMoved(p: Piece, moved: bool): (r: Piece)
    ensures r.hasMoved == moved
    ensures r.color == p.color && r.kind == p.kind
    ensures moved == p.hasMoved ==> r == p
  {
    p.(hasMoved := moved)
  }

  /** Setting the flag and then setting it back to its old value gives the
      original piece. */
  lemma SetHasMovedRestores(p: Piece, moved: bool)
    ensures SetHasMoved(SetHasMoved(p, moved), p.hasMoved) == p
  {
  }

  /** equals: field-wise comparison of colour, type and the flag. It coincides
      with value equality, so pieces of different colour or type are unequal. */
  function PieceEquals(a: Piece, b: Piece): (r: bool)
    ensures r <==> a == b
    ensures a.color != b.color || a.kind != b.kind ==> !r
  {
    && a.color == b.color
    && a.kind == b.kind
    && a.hasMoved == b.hasMoved
  }
}
