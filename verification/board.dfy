/** The board as a state machine: an 8x8 grid of optional pieces, a LIFO stack
    of removed pieces and a most-recent-first history of executed moves. Every
    mutator of the Java Board becomes a function from the old state to the new one. */
module ChessBoard {
  import opened ChessPiece
  import opened ChessGrid
  import opened ChessMove

  /** removed: the top of the stack is the last element.
      history: the most recent entry comes first. */
  datatype Board = Board(grid: Grid, removed: seq<Piece>, history: seq<Move>)

  /** Destination coordinates of the synthetic history entry that records a
      bare removal. */
  const RemovalMark := -1

  // ---------------------------------------------------------------------------
  // Initial setup

  /** The back rank, left to right. */
  const BackRankTypes: seq<PieceType> := [Rook, Knight, Bishop, Queen, King, Bishop, Knight, Rook]

  /** createChessPiece(color, y): the back-rank piece of column y. */
  function BackRankPiece(color: Color, y: int): Piece
    requires 0 <= y < 8
  {
    if y == 0 then NewPiece(color, Rook)
    else if y == 1 then NewPiece(color, Knight)
    else if y == 2 then NewPiece(color, Bishop)
    else if y == 3 then NewPiece(color, Queen)
    else if y == 4 then NewPiece(color, King)
    else if y == 5 then NewPiece(color, Bishop)
    else if y == 6 then NewPiece(color, Knight)
    else NewPiece(color, Rook)
  }

  /** createChessPiece(x, y): what cell (x, y) holds at the start. */
  function CreatePiece(x: int, y: int): Option<Piece>
    requires 0 <= y < 8
  {
    if x == 0 then Some(BackRankPiece(Black, y))
    else if x == 1 then Some(NewPiece(Black, Pawn))
    else if x == 6 then Some(NewPiece(White, Pawn))
    else if x == 7 then Some(BackRankPiece(White, y))
    else None
  }

  /** The constructor: black back rank on row 0 and pawns on row 1, white pawns
      on row 6 and back rank on row 7, rows 2 to 5 empty, no piece moved, no
      removed piece and no history. */
  function InitialBoard(): (b: Board)
    ensures b.removed == [] && b.history == []
    ensures forall y :: 0 <= y < 8 ==>
              && b.grid[0][y] == Some(Piece(Black, BackRankTypes[y], false))
              && b.grid[1][y] == Some(Piece(Black, Pawn, false))
              && b.grid[6][y] == Some(Piece(White, Pawn, false))
              && b.grid[7][y] == Some(Piece(White, BackRankTypes[y], false))
    ensures forall x, y :: 2 <= x <= 5 && 0 <= y < 8 ==> b.grid[x][y] == None
    ensures forall x, y :: OnBoard(x, y) && b.grid[x][y].Some? ==> !b.grid[x][y].value.hasMoved
  {
    Board(seq(8, x => seq(8, y requires 0 <= y < 8 => CreatePiece(x, y))), [], [])
  }

  // ---------------------------------------------------------------------------
  // Mutators

  /** addPiece: direct placement, bypassing the rules and the history. */
  function AddPiece(b: Board, x: int, y: int, p: Option<Piece>): (r: Board)
    requires OnBoard(x, y)
    ensures r.grid[x][y] == p
    ensures forall i, j :: OnBoard(i, j) && (i != x || j != y) ==> r.grid[i][j] == b.grid[i][j]
    ensures r.removed == b.removed && r.history == b.history
  {
    b.(grid := SetCell(b.grid, x, y, p))
  }

  /** The history entry that records the removal of piece p from (x, y). */
  function RemovalEntry(p: Piece, x: int, y: int): Move {
    NewMove(p.color, x, y, RemovalMark, RemovalMark)
  }

  /** removePiece: the piece leaves its cell, goes on top of the removed stack,
      and a removal entry is logged so that undo can put it back. removePiece
      dereferences the piece, so the cell must be occupied. */
  function RemovePiece(b: Board, x: int, y: int): (r: Board)
    requires OnBoard(x, y) && At(b.grid, x, y).Some?
    ensures r.grid[x][y] == None
    ensures forall i, j :: OnBoard(i, j) && (i != x || j != y) ==> r.grid[i][j] == b.grid[i][j]
    ensures r.removed == b.removed + [b.grid[x][y].value]
    ensures r.history == [RemovalEntry(b.grid[x][y].value, x, y)] + b.history
  {
    var p := At(b.grid, x, y).value;
    Board(SetCell(b.grid, x, y, None), b.removed + [p], [RemovalEntry(p, x, y)] + b.history)
  }

  /** Executing m takes a piece: the destination is another cell and holds a
      piece whose colour differs from the one on the source. */
  predicate TakesOpponent(g: Grid, m: Move)
    requires InBounds(m)
  {
    var s, d := At(g, m.srcX, m.srcY), At(g, m.destX, m.destY);
    && (m.srcX != m.destX || m.srcY != m.destY)
    && s.Some? && d.Some? && d.value.color != s.value.color
  }

  /** What movePiece needs in order not to dereference a missing piece: the
      source cell is occupied or the destination is empty. */
  predicate CanExecute(g: Grid, m: Move)
    requires InBounds(m)
  {
    At(g, m.srcX, m.srcY).Some? || At(g, m.destX, m.destY).None?
  }

  /** movePiece, unconditionally: the source cell is cleared; an opposing piece
      on the destination is removed through removePiece and the move is flagged
      as a capture; the source's piece lands on the destination and the move is
      logged. On a capture the history grows by the removal entry and the move,
      otherwise by the move alone. */
  function MovePiece(b: Board, m: Move): (r: Board)
    requires InBounds(m) && CanExecute(b.grid, m)
    ensures r.grid[m.destX][m.destY] == b.grid[m.srcX][m.srcY]
    ensures m.srcX != m.destX || m.srcY != m.destY ==> r.grid[m.srcX][m.srcY] == None
    ensures forall i, j :: OnBoard(i, j) && (i != m.srcX || j != m.srcY) && (i != m.destX || j != m.destY) ==>
              r.grid[i][j] == b.grid[i][j]
    ensures |r.history| > 0 && r.history[0] == m.(capture := TakesOpponent(b.grid, m))
    ensures TakesOpponent(b.grid, m) ==>
              && r.removed == b.removed + [b.grid[m.destX][m.destY].value]
              && r.history[1..] == [RemovalEntry(b.grid[m.destX][m.destY].value, m.destX, m.destY)] + b.history
    ensures !TakesOpponent(b.grid, m) ==> r.removed == b.removed && r.history[1..] == b.history
  {
    var srcPiece := At(b.grid, m.srcX, m.srcY);
    var cleared := b.(grid := SetCell(b.grid, m.srcX, m.srcY, None));
    var d := At(cleared.grid, m.destX, m.destY);
    if d.Some? && d.value.color != srcPiece.value.color then
      var b1 := RemovePiece(cleared, m.destX, m.destY);
      Board(SetCell(b1.grid, m.destX, m.destY, srcPiece), b1.removed, [m.(capture := true)] + b1.history)
    else
      Board(SetCell(cleared.grid, m.destX, m.destY, srcPiece), cleared.removed, [m.(capture := false)] + cleared.history)
  }

  /** The conditions under which undoMove neither indexes outside the grid nor
      pops an empty list or stack: an empty history, or a last entry that is a
      removal with a piece on the stack, or a move on the board that, when
      flagged as a capture, has a second entry and a piece on the stack. */
  predicate UndoDefined(b: Board) {
    |b.history| == 0 ||
    var last := b.history[0];
    if last.destX == RemovalMark then OnBoard(last.srcX, last.srcY) && |b.removed| > 0
    else InBounds(last) && (last.capture ==> |b.history| >= 2 && |b.removed| > 0)
  }

  /** undoMove: with an empty history reports false and changes nothing.
      Otherwise consumes the last entry: a removal puts the top of the stack back
      on its cell; a move brings the destination's piece back to the source and
      either clears the destination or, for a capture, also drops the removal
      entry and puts the top of the stack back on the destination. */
  function UndoMove(b: Board): (r: (bool, Board))
    requires UndoDefined(b)
    ensures |b.history| == 0 ==> r == (false, b)
    ensures |b.history| > 0 ==> r.0 && |r.1.history| < |b.history|
    ensures |b.history| > 0 ==> |r.1.removed| <= |b.removed|
  {
    if |b.history| == 0 then (false, b)
    else
      var last, rest := b.history[0], b.history[1..];
      if last.destX == RemovalMark then
        var top := b.removed[|b.removed| - 1];
        (true, Board(SetCell(b.grid, last.srcX, last.srcY, Some(top)), b.removed[..|b.removed| - 1], rest))
      else
        var back := SetCell(b.grid, last.srcX, last.srcY, At(b.grid, last.destX, last.destY));
        if last.capture then
          var top := b.removed[|b.removed| - 1];
          (true, Board(SetCell(back, last.destX, last.destY, Some(top)), b.removed[..|b.removed| - 1], rest[1..]))
        else
          (true, Board(SetCell(back, last.destX, last.destY, None), b.removed, rest))
  }

  // ---------------------------------------------------------------------------
  // Round trips

  /** removePiece followed by undoMove restores the board exactly. */
  lemma RemoveUndoRoundTrip(b: Board, x: int, y: int)
    requires OnBoard(x, y) && At(b.grid, x, y).Some?
    ensures UndoDefined(RemovePiece(b, x, y))
    ensures UndoMove(RemovePiece(b, x, y)) == (true, b)
  {
    var r := RemovePiece(b, x, y);
    var u := UndoMove(r).1;
    assert r.removed[..|r.removed| - 1] == b.removed;
    assert r.history[1..] == b.history;
    GridExt(u.grid, b.grid);
  }

  /** The destination does not hold a piece of the source piece's colour; in
      particular it is not the source itself. */
  predicate DestFreeOfMoverColour(g: Grid, m: Move)
    requires InBounds(m) && At(g, m.srcX, m.srcY).Some?
  {
    var d := At(g, m.destX, m.destY);
    !(d.Some? && d.value.color == At(g, m.srcX, m.srcY).value.color)
  }

  /** movePiece followed by undoMove restores grid, removed stack and history
      exactly, for an occupied source and a destination not of its colour. */
  lemma MoveUndoRoundTrip(b: Board, m: Move)
    requires InBounds(m) && At(b.grid, m.srcX, m.srcY).Some? && DestFreeOfMoverColour(b.grid, m)
    ensures UndoDefined(MovePiece(b, m))
    ensures UndoMove(MovePiece(b, m)) == (true, b)
  {
    var r := MovePiece(b, m);
    assert m.srcX != m.destX || m.srcY != m.destY;
    var u := UndoMove(r).1;
    if TakesOpponent(b.grid, m) {
      assert r.removed[..|r.removed| - 1] == b.removed;
      assert r.history[1..][1..] == b.history;
    } else {
      assert r.history[1..] == b.history;
    }
    GridExt(u.grid, b.grid);
  }

  /** Why the round trip needs a destination free of the mover's colour: when
      the destination holds that colour (the source itself included), the piece
      that stood there is overwritten, not stacked, and the undo leaves the
      destination empty. */
  lemma UndoAfterOwnColourMoveEmptiesDest(b: Board, m: Move)
    requires InBounds(m) && At(b.grid, m.srcX, m.srcY).Some? && !DestFreeOfMoverColour(b.grid, m)
    ensures UndoDefined(MovePiece(b, m))
    ensures UndoMove(MovePiece(b, m)).1.grid[m.destX][m.destY] == None
    ensures UndoMove(MovePiece(b, m)).1 != b
  {
    var r := MovePiece(b, m);
    assert !TakesOpponent(b.grid, m);
    assert r.history[0].destX != RemovalMark && !r.history[0].capture;
  }

  /** A rook two rows away along x reaches a cell not of its colour whatever
      stands on the row between, because isPathBlocked's scan along x inspects
      nothing for a distance of two. */
  lemma RookCrossesTwoRows(g: Grid, m: Move)
    requires InBounds(m) && MoverIs(g, m, Rook) && DistY(m) == 0 && Abs(DistX(m)) == 2
    requires !IsDestBlockedBySameColor(g, m)
    ensures IsMovePossible(g, m)
  {
    assert ScanEnd(m) == 1;
    assert !IsPathBlocked(g, m);
  }

  /** The row of c's back rank on the initial board. */
  function HomeRow(c: Color): int {
    if c == White then 7 else 0
  }

  /** A two-row move along x has one interior cell, the row between. */
  lemma MiddleRowIsInterior(g: Grid, m: Move, x: int)
    requires InBounds(m) && DistY(m) == 0 && Abs(DistX(m)) == 2
    requires 2 * x == m.srcX + m.destX && g[x][m.srcY].Some?
    ensures Straight(m) && InteriorOccupied(g, m)
  {
    assert LineCell(m, 1) == (x, m.srcY);
  }

  /** A rook with a piece on the row between it and an empty cell two rows
      away may move there: it jumps the piece in between. */
  lemma RookJumpsMiddleRow(g: Grid, m: Move, x: int)
    requires InBounds(m) && DistY(m) == 0 && Abs(DistX(m)) == 2 && 2 * x == m.srcX + m.destX
    requires g[m.srcX][m.srcY] == Some(Piece(m.player, Rook, false))
    requires g[x][m.srcY].Some? && g[m.destX][m.destY] == None
    ensures Straight(m) && InteriorOccupied(g, m) && IsMovePossible(g, m)
  {
    MiddleRowIsInterior(g, m, x);
    RookCrossesTwoRows(g, m);
  }

  /** On the initial board each side's rook on column 0 may move two rows
      forward over its own pawn (White from (7, 0) to (5, 0), Black from (0, 0)
      to (2, 0)), because the scan along x stops one cell early. */
  lemma InitialRookJumpsOwnPawn(c: Color, m: Move)
    requires m.player == c && m.srcX == HomeRow(c) && m.srcY == 0
    requires m.destX == HomeRow(c) + 2 * Forward(c) && m.destY == 0
    ensures var g := InitialBoard().grid;
            InBounds(m) && Straight(m) && InteriorOccupied(g, m) && IsMovePossible(g, m)
  {
    var g := InitialBoard().grid;
    InitialHomeColumn(g, c);
    RookJumpsMiddleRow(g, m, HomeRow(c) + Forward(c));
  }

  /** Column 0 of the initial board seen from c's side: its rook, its pawn in
      front, and an empty cell beyond. */
  lemma InitialHomeColumn(g: Grid, c: Color)
    requires g == InitialBoard().grid
    ensures var x, f := HomeRow(c), Forward(c);
            && g[x][0] == Some(Piece(c, Rook, false))
            && g[x + f][0] == Some(Piece(c, Pawn, false))
            && g[x + 2 * f][0] == None
  {
    assert BackRankTypes[0] == Rook;
  }
}
