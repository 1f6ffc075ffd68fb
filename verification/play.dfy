/** The game operations of the board: the simulate-then-rollback self-check
    probe, makeMove, the enumeration of valid moves, and checkmate and
    stalemate detection. */
module Play {
  import opened ChessPiece
  import opened ChessGrid
  import opened ChessMove
  import opened ChessBoard
  import opened Check

  /** willBeChecked: execute the move unconditionally, ask whether the mover's
      king is in check, undo, and report what was observed together with the
      board the undo leaves behind. */
  function WillBeChecked(b: Board, m: Move): (r: (bool, Board))
    requires InBounds(m) && CanExecute(b.grid, m)
    ensures r.0 <==> IsChecked(MovePiece(b, m).grid, m.player)
    ensures At(b.grid, m.srcX, m.srcY).Some? && DestFreeOfMoverColour(b.grid, m) ==> r.1 == b
  {
    var probe := MovePiece(b, m);
    var checked := IsChecked(probe.grid, m.player);
    if At(b.grid, m.srcX, m.srcY).Some? && DestFreeOfMoverColour(b.grid, m) then
      MoveUndoRoundTrip(b, m);
      (checked, UndoMove(probe).1)
    else
      (checked, UndoMove(probe).1)
  }

  /** The move object as willBeChecked leaves it: movePiece sets the capture
      flag when the destination holds an opposing piece and nothing clears it,
      so the flag stays set after the undo. Nothing else about the move changes. */
  function Probed(b: Board, m: Move): (r: Move)
    requires InBounds(m)
    ensures r.capture <==> m.capture || TakesOpponent(b.grid, m)
    ensures r.(capture := m.capture) == m
  {
    m.(capture := m.capture || TakesOpponent(b.grid, m))
  }

  /** Two moves that differ at most in the flag and are both unflagged are one
      move: probing keeps fresh moves apart. */
  lemma ProbedInjective(b: Board, m0: Move, m1: Move)
    requires InBounds(m0) && InBounds(m1) && !m0.capture && !m1.capture
    ensures Probed(b, m0) == Probed(b, m1) <==> m0 == m1
  {
    if Probed(b, m0) == Probed(b, m1) {
      assert m0 == Probed(b, m0).(capture := false);
      assert m1 == Probed(b, m1).(capture := false);
    }
  }

  /** A move is legal when it is structurally possible and, once executed,
      does not leave the mover's king in check. */
  predicate IsLegal(b: Board, m: Move)
    requires InBounds(m)
  {
    IsMovePossible(b.grid, m) && !IsChecked(MovePiece(b, m).grid, m.player)
  }

  /** The commit step of makeMove: the piece on the source is marked as moved
      and the move is executed. The marked piece stands on the destination, the
      source is empty, every other cell is unchanged and the move, flagged as a
      capture when it took an opposing piece, heads the history. */
  function Commit(b: Board, m: Move): (r: Board)
    requires InBounds(m) && At(b.grid, m.srcX, m.srcY).Some? && (m.srcX != m.destX || m.srcY != m.destY)
    ensures var p := b.grid[m.srcX][m.srcY].value;
            && r.grid[m.destX][m.destY] == Some(SetHasMoved(p, true))
            && r.grid[m.srcX][m.srcY] == None
            && (forall i, j :: OnBoard(i, j) && (i != m.srcX || j != m.srcY) && (i != m.destX || j != m.destY) ==>
                  r.grid[i][j] == b.grid[i][j])
            && |r.history| > 0 && r.history[0] == m.(capture := TakesOpponent(b.grid, m))
  {
    var p := At(b.grid, m.srcX, m.srcY).value;
    var marked := b.(grid := SetCell(b.grid, m.srcX, m.srcY, Some(SetHasMoved(p, true))));
    assert TakesOpponent(marked.grid, m) == TakesOpponent(b.grid, m);
    MovePiece(marked, m)
  }

  /** makeMove: an impossible move, or one the probe finds to leave the mover
      in check, is refused and the board is unchanged; any other move is
      committed. */
  function MakeMove(b: Board, m: Move): (r: (bool, Board))
    requires InBounds(m)
    ensures r.0 <==> IsLegal(b, m)
    ensures !r.0 ==> r.1 == b
    ensures r.0 ==> r.1 == Commit(b, m)
  {
    if !IsMovePossible(b.grid, m) then (false, b)
    else
      var probe := WillBeChecked(b, m);
      if probe.0 then (false, probe.1) else (true, Commit(probe.1, m))
  }

  /** Undoing a successful makeMove restores every cell, the removed stack and
      the history, except that the moved piece keeps its flag set: undo does
      not record it. */
  lemma MakeMoveThenUndo(b: Board, m: Move)
    requires InBounds(m) && MakeMove(b, m).0
    ensures UndoDefined(MakeMove(b, m).1)
    ensures var p := b.grid[m.srcX][m.srcY].value;
            UndoMove(MakeMove(b, m).1) == (true, AddPiece(b, m.srcX, m.srcY, Some(SetHasMoved(p, true))))
  {
    var p := b.grid[m.srcX][m.srcY].value;
    var marked := b.(grid := SetCell(b.grid, m.srcX, m.srcY, Some(SetHasMoved(p, true))));
    assert MakeMove(b, m).1 == MovePiece(marked, m);
    MoveUndoRoundTrip(marked, m);
  }

  // ---------------------------------------------------------------------------
  // getAllValidMovesByPlayer

  /** The candidates among ms that the loops keep, in order: those that are
      possible and that the probe does not find to leave the mover in check.
      The list holds each kept move as the probe left it, flag included. */
  function ValidAmong(b: Board, ms: seq<Move>): (r: seq<Move>)
    requires forall m :: m in ms ==> InBounds(m)
    ensures |r| <= |ms|
    ensures forall m0 :: m0 in ms && IsLegal(b, m0) ==> Probed(b, m0) in r
    ensures forall m {:trigger m in r} :: m in r ==> exists m0 :: m0 in ms && IsLegal(b, m0) && m == Probed(b, m0)
  {
    if ms == [] then []
    else
      var m := ms[0];
      (if IsMovePossible(b.grid, m) && !WillBeChecked(b, m).0 then [Probed(b, m)] else []) + ValidAmong(b, ms[1..])
  }

  /** getAllValidMovesByPlayer: the candidates the loops build, filtered by
      isMovePossible and the probe; ValidMovesIff characterises the result. */
  function ValidMoves(b: Board, c: Color): seq<Move> {
    CandidatesIff(c);
    ValidAmong(b, Candidates(c))
  }

  /** The valid-move list holds exactly the legal moves of colour c whose source
      and destination indices are below 63, each flagged as a capture exactly
      when it takes an opposing piece. */
  lemma ValidMovesIff(b: Board, c: Color)
    ensures forall m0 :: IsEnumerated(m0, c) ==> (Probed(b, m0) in ValidMoves(b, c) <==> IsLegal(b, m0))
    ensures forall m {:trigger m in ValidMoves(b, c)} :: m in ValidMoves(b, c) ==>
              var m0 := m.(capture := false);
              IsEnumerated(m0, c) && IsLegal(b, m0) && m == Probed(b, m0)
  {
    CandidatesIff(c);
    var vm := ValidMoves(b, c);
    forall m0 | IsEnumerated(m0, c) && Probed(b, m0) in vm
      ensures IsLegal(b, m0)
    {
      var m1 :| m1 in Candidates(c) && IsLegal(b, m1) && Probed(b, m0) == Probed(b, m1);
      ProbedInjective(b, m0, m1);
    }
    forall m | m in vm
      ensures var m0 := m.(capture := false); IsEnumerated(m0, c) && IsLegal(b, m0) && m == Probed(b, m0)
    {
      var m1 :| m1 in Candidates(c) && IsLegal(b, m1) && m == Probed(b, m1);
      assert m1 == m.(capture := false);
    }
  }

  /** No enumerated move of colour c is legal. */
  ghost predicate NoLegalMove(b: Board, c: Color) {
    forall m :: IsEnumerated(m, c) ==> !IsLegal(b, m)
  }

  /** The valid-move list is empty exactly when no enumerated move is legal. */
  lemma NoValidMoveIff(b: Board, c: Color)
    ensures |ValidMoves(b, c)| == 0 <==> NoLegalMove(b, c)
  {
    ValidMovesIff(b, c);
    if |ValidMoves(b, c)| == 0 {
      forall m | IsEnumerated(m, c)
        ensures !IsLegal(b, m)
      {
        assert Probed(b, m) !in ValidMoves(b, c);
      }
    } else {
      var m := ValidMoves(b, c)[0];
      assert m in ValidMoves(b, c);
      assert IsEnumerated(m.(capture := false), c);
    }
  }

  /** isCheckmate: in check, and the valid-move list is empty. */
  function IsCheckmate(b: Board, c: Color): (r: bool)
    ensures r <==> IsChecked(b.grid, c) && NoLegalMove(b, c)
  {
    NoValidMoveIff(b, c);
    IsChecked(b.grid, c) && |ValidMoves(b, c)| == 0
  }

  /** isStalemate: not in check, and the valid-move list is empty. */
  function IsStalemate(b: Board, c: Color): (r: bool)
    ensures r <==> !IsChecked(b.grid, c) && NoLegalMove(b, c)
  {
    NoValidMoveIff(b, c);
    !IsChecked(b.grid, c) && |ValidMoves(b, c)| == 0
  }

  /** Checkmate and stalemate exclude each other, and together they say that
      makeMove refuses every move the enumeration can produce. */
  lemma EndOfGame(b: Board, c: Color)
    ensures !(IsCheckmate(b, c) && IsStalemate(b, c))
    ensures IsCheckmate(b, c) || IsStalemate(b, c) <==>
              forall m :: IsEnumerated(m, c) ==> !MakeMove(b, m).0
  {
  }
}
