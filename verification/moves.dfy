/** A requested move and the per-piece predicates that decide whether it is
    structurally possible on a grid: geometry, path blocking and the rule that
    a piece may not land on its own colour. King safety is not considered here. */
module ChessMove {
  import opened ChessPiece
  import opened ChessGrid

  /** The mover's colour, the source and destination cells, and the capture
      flag that execution sets. The Java Move also keeps a reference to the board;
      here the grid is passed to every predicate instead. */
  datatype Move = Move(player: Color, srcX: int, srcY: int, destX: int, destY: int, capture: bool)

  /** Both ends of the move lie on the board. */
  predicate InBounds(m: Move) {
    OnBoard(m.srcX, m.srcY) && OnBoard(m.destX, m.destY)
  }

  /** The constructor: a move has not captured anything until it is executed. */
  function NewMove(player: Color, srcX: int, srcY: int, destX: int, destY: int): (m: Move)
    ensures m.player == player && m.srcX == srcX && m.srcY == srcY
    ensures m.destX == destX && m.destY == destY
    ensures !m.capture
  {
    Move(player, srcX, srcY, destX, destY, false)
  }

  /** equals: source, destination, capture flag and colour all match. It
      coincides with value equality of moves. */
  function MoveEquals(a: Move, b: Move): (r: bool)
    ensures r <==> a == b
    ensures a.player != b.player ==> !r
  {
    && a.srcX == b.srcX && a.srcY == b.srcY
    && a.destX == b.destX && a.destY == b.destY
    && a.capture == b.capture
    && a.player == b.player
  }

  function Abs(n: int): nat {
    if n < 0 then -n else n
  }

  function Min(a: int, b: int): int {
    if a <= b then a else b
  }

  function Max(a: int, b: int): int {
    if a <= b then b else a
  }

  function DistX(m: Move): int {
    m.destX - m.srcX
  }

  function DistY(m: Move): int {
    m.destY - m.srcY
  }

  // ---------------------------------------------------------------------------
  // Shapes of a move

  /** Along one coordinate only, by a nonzero amount. */
  predicate IsMoveLinear(m: Move) {
    (DistX(m) == 0 && DistY(m) != 0) || (DistX(m) != 0 && DistY(m) == 0)
  }

  /** Equal nonzero displacement in both coordinates. */
  predicate IsMoveDiagonal(m: Move) {
    DistX(m) != 0 && Abs(DistX(m)) == Abs(DistY(m))
  }

  predicate IsMoveLShape(m: Move) {
    var ax, ay := Abs(DistX(m)), Abs(DistY(m));
    (ax == 2 && ay == 1) || (ax == 1 && ay == 2)
  }

  /** A move along a line the path scan knows about. */
  predicate Straight(m: Move) {
    IsMoveLinear(m) || IsMoveDiagonal(m)
  }

  /** Linear and diagonal are exclusive, and a move that stays put is neither. */
  lemma LinearDiagonalDisjoint(m: Move)
    ensures !(IsMoveLinear(m) && IsMoveDiagonal(m))
    ensures DistX(m) == 0 && DistY(m) == 0 ==> !IsMoveLinear(m) && !IsMoveDiagonal(m)
  {
  }

  // ---------------------------------------------------------------------------
  // The path scan as isPathBlocked writes it

  /** The scan loop runs i = 1 .. ScanEnd(m) - 1. Along y (DistX == 0) it stops
      before |DistY|; along x and on diagonals it stops before |DistX| - 1. */
  function ScanEnd(m: Move): int {
    if IsMoveLinear(m) then
      if DistX(m) == 0 then Abs(DistY(m)) else Abs(DistX(m)) - 1
    else if IsMoveDiagonal(m) then Abs(DistX(m)) - 1
    else 1
  }

  /** The cell the scan inspects at iteration i, counted from the smaller
      coordinates (from the larger y on an anti-diagonal). It is always on the
      board, so the scan never indexes outside the grid. */
  function ScanCell(m: Move, i: int): (c: (int, int))
    requires InBounds(m) && 1 <= i < ScanEnd(m)
    ensures OnBoard(c.0, c.1)
  {
    var minX, minY, maxY := Min(m.srcX, m.destX), Min(m.srcY, m.destY), Max(m.srcY, m.destY);
    if IsMoveLinear(m) then
      if DistX(m) == 0 then (minX, minY + i) else (minX + i, minY)
    else if DistY(m) + DistX(m) == 0 then (minX + i, maxY - i)
    else (minX + i, minY + i)
  }

  /** isPathBlocked: some inspected cell holds a piece. Moves that are neither
      linear nor diagonal inspect nothing. */
  predicate IsPathBlocked(g: Grid, m: Move)
    requires InBounds(m)
  {
    exists i :: 1 <= i < ScanEnd(m) && Occupied(g, ScanCell(m, i))
  }

  // ---------------------------------------------------------------------------
  // The line of a move, walked from the source

  /** a moved k steps in the direction of the sign of d. */
  function Toward(a: int, d: int, k: int): int {
    if d > 0 then a + k else if d < 0 then a - k else a
  }

  /** Number of steps from source to destination along a straight line. */
  function Span(m: Move): nat {
    Max(Abs(DistX(m)), Abs(DistY(m)))
  }

  /** The cell k steps from the source towards the destination. Step 0 is the
      source, step Span the destination, and every step between is on the board. */
  function LineCell(m: Move, k: int): (c: (int, int))
    requires InBounds(m) && Straight(m) && 0 <= k <= Span(m)
    ensures OnBoard(c.0, c.1)
    ensures k == 0 ==> c == (m.srcX, m.srcY)
    ensures k == Span(m) ==> c == (m.destX, m.destY)
  {
    (Toward(m.srcX, DistX(m), k), Toward(m.srcY, DistY(m), k))
  }

  /** Some cell strictly between source and destination holds a piece. */
  predicate InteriorOccupied(g: Grid, m: Move)
    requires InBounds(m) && Straight(m)
  {
    exists k :: 0 < k < Span(m) && Occupied(g, LineCell(m, k))
  }

  /** Whether isPathBlocked's scan looks at the k-th cell of the line. Along y it
      looks at every cell; when x changes it never looks at the cell whose x is
      one less than the larger of the two x coordinates. */
  predicate Inspected(m: Move, k: int)
    requires InBounds(m) && Straight(m) && 0 <= k <= Span(m)
  {
    DistX(m) == 0 || LineCell(m, k).0 != Max(m.srcX, m.destX) - 1
  }

  /** Step along the line that corresponds to iteration i of the scan. */
  function StepOfScan(m: Move, i: int): int {
    if DistX(m) == 0 then (if DistY(m) > 0 then i else Abs(DistY(m)) - i)
    else if DistX(m) > 0 then i
    else Abs(DistX(m)) - i
  }

  /** Iteration of the scan that corresponds to step k along the line. */
  function ScanOfStep(m: Move, k: int): int
    requires InBounds(m) && Straight(m) && 0 <= k <= Span(m)
  {
    if DistX(m) == 0 then LineCell(m, k).1 - Min(m.srcY, m.destY)
    else LineCell(m, k).0 - Min(m.srcX, m.destX)
  }

  lemma ScanIsOnLine(m: Move, i: int)
    requires InBounds(m) && 1 <= i < ScanEnd(m)
    ensures Straight(m)
    ensures 0 < StepOfScan(m, i) < Span(m)
    ensures LineCell(m, StepOfScan(m, i)) == ScanCell(m, i)
    ensures Inspected(m, StepOfScan(m, i))
  {
  }

  lemma LineIsScanned(m: Move, k: int)
    requires InBounds(m) && Straight(m) && 0 < k < Span(m) && Inspected(m, k)
    ensures 1 <= ScanOfStep(m, k) < ScanEnd(m)
    ensures ScanCell(m, ScanOfStep(m, k)) == LineCell(m, k)
  {
  }

  /** What the scan decides, in terms of the line: the path is blocked exactly
      when some inspected cell strictly between the ends is occupied. */
  lemma PathBlockedExact(g: Grid, m: Move)
    requires InBounds(m) && Straight(m)
    ensures IsPathBlocked(g, m) <==>
              exists k :: 0 < k < Span(m) && Inspected(m, k) && Occupied(g, LineCell(m, k))
  {
    if IsPathBlocked(g, m) {
      var i :| 1 <= i < ScanEnd(m) && Occupied(g, ScanCell(m, i));
      ScanIsOnLine(m, i);
      var k := StepOfScan(m, i);
      assert 0 < k < Span(m) && Inspected(m, k) && Occupied(g, LineCell(m, k));
    }
    if exists k :: 0 < k < Span(m) && Inspected(m, k) && Occupied(g, LineCell(m, k)) {
      var k :| 0 < k < Span(m) && Inspected(m, k) && Occupied(g, LineCell(m, k));
      LineIsScanned(m, k);
      var i := ScanOfStep(m, k);
      assert 1 <= i < ScanEnd(m) && Occupied(g, ScanCell(m, i));
    }
  }

  /** Soundness of the scan: a blocked path has an occupied cell strictly
      between source and destination. A move that is neither linear nor
      diagonal is never blocked. */
  lemma PathBlockedSound(g: Grid, m: Move)
    requires InBounds(m)
    ensures IsPathBlocked(g, m) ==> Straight(m) && InteriorOccupied(g, m)
  {
    if IsPathBlocked(g, m) {
      var i :| 1 <= i < ScanEnd(m) && Occupied(g, ScanCell(m, i));
      ScanIsOnLine(m, i);
      var k := StepOfScan(m, i);
      assert 0 < k < Span(m) && Occupied(g, LineCell(m, k));
    }
  }

  /** Along y (DistX == 0) the scan is also complete. */
  lemma PathBlockedCompleteAlongY(g: Grid, m: Move)
    requires InBounds(m) && IsMoveLinear(m) && DistX(m) == 0
    ensures IsPathBlocked(g, m) <==> InteriorOccupied(g, m)
  {
    PathBlockedExact(g, m);
    if InteriorOccupied(g, m) {
      var k :| 0 < k < Span(m) && Occupied(g, LineCell(m, k));
      assert Inspected(m, k);
    }
  }

  /** The step of a line whose x is one less than the larger x: next to the
      destination when x grows, next to the source when it shrinks. */
  function SkippedStep(m: Move): int {
    if DistX(m) > 0 then Abs(DistX(m)) - 1 else 1
  }

  /** When x changes by two or more, the scan misses one interior cell: on a
      grid holding a single piece in that cell the line is occupied, yet the
      path is reported clear. */
  lemma PathScanMissesCell(m: Move, p: Piece)
    requires InBounds(m) && Straight(m) && DistX(m) != 0 && Abs(DistX(m)) >= 2
    ensures 0 < SkippedStep(m) < Span(m)
    ensures var c := LineCell(m, SkippedStep(m));
            var g := SetCell(EmptyGrid(), c.0, c.1, Some(p));
            InteriorOccupied(g, m) && !IsPathBlocked(g, m)
  {
    var c := LineCell(m, SkippedStep(m));
    var g := SetCell(EmptyGrid(), c.0, c.1, Some(p));
    assert Occupied(g, LineCell(m, SkippedStep(m)));
    forall i | 1 <= i < ScanEnd(m)
      ensures !Occupied(g, ScanCell(m, i))
    {
      assert ScanCell(m, i).0 < c.0;
    }
  }

  // ---------------------------------------------------------------------------
  // Destination occupancy

  predicate IsDestBlockedBySameColor(g: Grid, m: Move)
    requires OnBoard(m.destX, m.destY)
  {
    var d := At(g, m.destX, m.destY);
    d.Some? && d.value.color == m.player
  }

  predicate IsDestBlockedByDifferentColor(g: Grid, m: Move)
    requires OnBoard(m.destX, m.destY)
  {
    var d := At(g, m.destX, m.destY);
    d.Some? && d.value.color != m.player
  }

  // ---------------------------------------------------------------------------
  // Per-piece rules

  predicate IsKnightMovePossible(g: Grid, m: Move)
    requires InBounds(m)
  {
    IsMoveLShape(m) && !IsDestBlockedBySameColor(g, m)
  }

  predicate IsRookMovePossible(g: Grid, m: Move)
    requires InBounds(m)
  {
    IsMoveLinear(m) && !IsPathBlocked(g, m) && !IsDestBlockedBySameColor(g, m)
  }

  predicate IsBishopMovePossible(g: Grid, m: Move)
    requires InBounds(m)
  {
    IsMoveDiagonal(m) && !IsPathBlocked(g, m) && !IsDestBlockedBySameColor(g, m)
  }

  predicate IsQueenMovePossible(g: Grid, m: Move)
    requires InBounds(m)
  {
    (IsMoveLinear(m) || IsMoveDiagonal(m)) && !IsPathBlocked(g, m) && !IsDestBlockedBySameColor(g, m)
  }

  /** The cannon moves only along a line whose path IS blocked. */
  predicate IsCannonMovePossible(g: Grid, m: Move)
    requires InBounds(m)
  {
    (IsMoveLinear(m) && IsPathBlocked(g, m)) && !IsDestBlockedBySameColor(g, m)
  }

  predicate IsAlfilMovePossible(g: Grid, m: Move)
    requires InBounds(m)
  {
    var ax, ay := Abs(DistX(m)), Abs(DistY(m));
    (ax == 2 && ay == 2) && IsMoveDiagonal(m) && !IsDestBlockedBySameColor(g, m)
  }

  predicate IsKingMovePossible(g: Grid, m: Move)
    requires InBounds(m)
  {
    Abs(DistX(m)) <= 1 && Abs(DistY(m)) <= 1 && !IsDestBlockedBySameColor(g, m)
  }

  /** Forward along x: WHITE towards row 0, BLACK towards row 7. */
  function Forward(c: Color): int {
    if c == White then -1 else 1
  }

  predicate IsPawnMovePossible(g: Grid, m: Move)
    requires InBounds(m) && At(g, m.srcX, m.srcY).Some?
  {
    if IsDestBlockedBySameColor(g, m) then false
    else IsPawnStepPossible(g, m, if m.player == White then -1 else 1)
  }

  /** The pawn rule for one direction: the capture branch compares the y
      displacement with the factor and the x displacement with one; otherwise a
      move along x by the factor, or twice the factor before the pawn has moved. */
  predicate IsPawnStepPossible(g: Grid, m: Move, factor: int)
    requires InBounds(m) && At(g, m.srcX, m.srcY).Some?
  {
    var dx, dy := DistX(m), DistY(m);
    if dy == factor && Abs(dx) == 1 && IsDestBlockedByDifferentColor(g, m) then true
    else if !At(g, m.srcX, m.srcY).value.hasMoved then (dx == 2 * factor || dx == factor) && dy == 0
    else dx == factor && dy == 0
  }

  /** isMovePossible: fails on an empty source or a piece of the other colour,
      otherwise defers to the rule for the piece's type. A possible move never
      ends on the mover's own colour, so it never stays on its source. */
  function IsMovePossible(g: Grid, m: Move): (r: bool)
    requires InBounds(m)
    ensures r ==> At(g, m.srcX, m.srcY).Some? && At(g, m.srcX, m.srcY).value.color == m.player
    ensures r ==> !IsDestBlockedBySameColor(g, m)
    ensures r ==> m.srcX != m.destX || m.srcY != m.destY
  {
    match At(g, m.srcX, m.srcY)
    case None => false
    case Some(p) =>
      if p.color != m.player then false
      else
        match p.kind
        case Knight => IsKnightMovePossible(g, m)
        case Rook => IsRookMovePossible(g, m)
        case Bishop => IsBishopMovePossible(g, m)
        case Queen => IsQueenMovePossible(g, m)
        case King => IsKingMovePossible(g, m)
        case Pawn => IsPawnMovePossible(g, m)
        case Cannon => IsCannonMovePossible(g, m)
        case Alfil => IsAlfilMovePossible(g, m)
  }

  /** The mover's piece stands on the source. */
  predicate MoverIs(g: Grid, m: Move, kind: PieceType)
    requires InBounds(m)
  {
    var s := At(g, m.srcX, m.srcY);
    s.Some? && s.value.color == m.player && s.value.kind == kind
  }

  // ---------------------------------------------------------------------------
  // The rules restated per piece

  /** Knights jump: the absolute displacements are one and two in either order,
      and the cells in between do not matter. */
  lemma KnightMoveIff(g: Grid, m: Move)
    requires InBounds(m) && MoverIs(g, m, Knight)
    ensures IsMovePossible(g, m) <==>
              {Abs(DistX(m)), Abs(DistY(m))} == {1, 2} && !IsDestBlockedBySameColor(g, m)
  {
    var ax, ay := Abs(DistX(m)), Abs(DistY(m));
    if {ax, ay} == {1, 2} {
      assert 1 in {ax, ay} && 2 in {ax, ay};
      assert ax in {1, 2} && ay in {1, 2};
    }
    if IsMoveLShape(m) {
      assert {ax, ay} == {1, 2};
    }
  }

  /** Kings step to any of the eight neighbours not holding their own colour. */
  lemma KingMoveIff(g: Grid, m: Move)
    requires InBounds(m) && MoverIs(g, m, King)
    ensures IsMovePossible(g, m) <==>
              Abs(DistX(m)) <= 1 && Abs(DistY(m)) <= 1 && !IsDestBlockedBySameColor(g, m)
  {
  }

  /** Alfils jump exactly two cells diagonally, over whatever stands between. */
  lemma AlfilMoveIff(g: Grid, m: Move)
    requires InBounds(m) && MoverIs(g, m, Alfil)
    ensures IsMovePossible(g, m) <==>
              Abs(DistX(m)) == 2 && Abs(DistY(m)) == 2 && !IsDestBlockedBySameColor(g, m)
  {
  }

  /** Rook, bishop and queen need their line and a path the scan finds clear;
      along y that means every cell strictly between the ends is empty. */
  lemma SliderMoveIff(g: Grid, m: Move, kind: PieceType)
    requires InBounds(m) && MoverIs(g, m, kind) && kind in {Rook, Bishop, Queen}
    ensures IsMovePossible(g, m) <==>
              && (kind == Rook ==> IsMoveLinear(m))
              && (kind == Bishop ==> IsMoveDiagonal(m))
              && Straight(m)
              && !IsPathBlocked(g, m)
              && !IsDestBlockedBySameColor(g, m)
    ensures DistX(m) == 0 && kind != Bishop ==>
              (IsMovePossible(g, m) <==>
                 DistY(m) != 0 && !InteriorOccupied(g, m) && !IsDestBlockedBySameColor(g, m))
  {
    if DistX(m) == 0 && kind != Bishop && DistY(m) != 0 {
      PathBlockedCompleteAlongY(g, m);
    }
  }

  /** The cannon moves only along a line with an occupied cell strictly between
      the ends, so it never reaches an adjacent cell and never crosses an empty
      line. */
  lemma CannonMoveIff(g: Grid, m: Move)
    requires InBounds(m) && MoverIs(g, m, Cannon)
    ensures IsMovePossible(g, m) <==>
              IsMoveLinear(m) && IsPathBlocked(g, m) && !IsDestBlockedBySameColor(g, m)
    ensures IsMovePossible(g, m) ==> Span(m) >= 2 && InteriorOccupied(g, m)
  {
    PathBlockedSound(g, m);
  }

  /** The pawn rule with WHITE's forward direction -1 and BLACK's +1: a capture
      needs an opposing piece, a y displacement of one forward step and an x
      displacement of one; any other move goes forward along x by one, or by two
      before the pawn has moved, onto a cell not of its own colour. */
  lemma PawnMoveIff(g: Grid, m: Move)
    requires InBounds(m) && MoverIs(g, m, Pawn)
    ensures var f, moved := Forward(m.player), At(g, m.srcX, m.srcY).value.hasMoved;
            IsMovePossible(g, m) <==>
              || (DistY(m) == f && Abs(DistX(m)) == 1 && IsDestBlockedByDifferentColor(g, m))
              || (DistY(m) == 0 && (DistX(m) == f || (DistX(m) == 2 * f && !moved))
                  && !IsDestBlockedBySameColor(g, m))
  {
  }

  /** Consequences of the pawn rule as written: a pawn reaches an empty cell
      only with y unchanged; the double step needs an unmoved pawn; and the
      advance does not look at what stands on the destination, so a pawn may
      advance straight onto an opposing piece. */
  lemma PawnMoveFacts(g: Grid, m: Move)
    requires InBounds(m) && MoverIs(g, m, Pawn)
    ensures IsMovePossible(g, m) && At(g, m.destX, m.destY).None? ==> DistY(m) == 0
    ensures IsMovePossible(g, m) && DistX(m) == 2 * Forward(m.player) ==>
              !At(g, m.srcX, m.srcY).value.hasMoved
    ensures DistY(m) == 0 && DistX(m) == Forward(m.player) && IsDestBlockedByDifferentColor(g, m) ==>
              IsMovePossible(g, m)
  {
    PawnMoveIff(g, m);
  }

  /** The capture branch compares the y displacement with the forward factor
      and the x displacement with one, so a pawn takes an opposing piece one
      step forward in y and one step back in x, but not one step forward in x
      and one step back in y. */
  lemma PawnCaptureQuirk(g: Grid, m: Move)
    requires InBounds(m) && MoverIs(g, m, Pawn) && IsDestBlockedByDifferentColor(g, m)
    ensures DistX(m) == -Forward(m.player) && DistY(m) == Forward(m.player) ==> IsMovePossible(g, m)
    ensures DistX(m) == Forward(m.player) && DistY(m) == -Forward(m.player) ==> !IsMovePossible(g, m)
  {
    PawnMoveIff(g, m);
  }
}
