/** Check detection: the king search, the brute-force enumeration of
    structurally possible moves, and isChecked built from the two. The
    enumeration runs over cell indices 0 .. 62 for both source and destination,
    so the cell (7, 7), index 63, is never enumerated. */
module Check {
  import opened ChessPiece
  import opened ChessGrid
  import opened ChessMove

  /** Number of cell indices the enumeration loops visit (0 .. 62). */
  const EnumBound := 63

  /** Java's int division and remainder, which truncate toward zero. */
  function JavaDiv(a: int, b: int): int
    requires b > 0
  {
    if a >= 0 then a / b else -((-a) / b)
  }

  function JavaRem(a: int, b: int): int
    requires b > 0
  {
    a - JavaDiv(a, b) * b
  }

  /** Row-major index of a cell. */
  function Index(x: int, y: int): int {
    x * 8 + y
  }

  /** Row and column of a cell index are on the board and index it back. */
  lemma IndexCell(k: int)
    requires 0 <= k < 64
    ensures OnBoard(k / 8, k % 8) && Index(k / 8, k % 8) == k
  {
  }

  lemma CellIndex(x: int, y: int)
    requires OnBoard(x, y)
    ensures Index(x, y) / 8 == x && Index(x, y) % 8 == y
  {
  }

  // ---------------------------------------------------------------------------
  // getKingByColor

  predicate IsKingAt(g: Grid, c: Color, k: int)
    requires 0 <= k < 64
  {
    var p := g[k / 8][k % 8];
    p.Some? && p.value.kind == King && p.value.color == c
  }

  /** The first index at or after k, in row-major order, of a cell holding c's
      king; None when there is none. */
  function FindKing(g: Grid, c: Color, k: nat): (r: Option<int>)
    requires k <= 64
    decreases 64 - k
    ensures r.Some? ==> k <= r.value < 64 && IsKingAt(g, c, r.value)
    ensures r.Some? ==> forall j :: k <= j < r.value ==> !IsKingAt(g, c, j)
    ensures r.None? ==> forall j :: k <= j < 64 ==> !IsKingAt(g, c, j)
  {
    if k == 64 then None
    else if IsKingAt(g, c, k) then Some(k)
    else FindKing(g, c, k + 1)
  }

  /** getKingByColor: the index x * 8 + y of the first cell holding c's king,
      or the sentinel -1 when c has no king. */
  function KingIndex(g: Grid, c: Color): (r: int)
    ensures -1 <= r < 64
    ensures r == -1 <==> forall j :: 0 <= j < 64 ==> !IsKingAt(g, c, j)
    ensures r >= 0 ==> IsKingAt(g, c, r) && forall j :: 0 <= j < r ==> !IsKingAt(g, c, j)
  {
    match FindKing(g, c, 0)
    case Some(k) => k
    case None => -1
  }

  // ---------------------------------------------------------------------------
  // getAllPossibleMovesByPlayer

  /** The move the enumeration builds for the index pair (i, j). */
  function Candidate(c: Color, i: int, j: int): (m: Move)
    requires 0 <= i < 64 && 0 <= j < 64
    ensures InBounds(m) && m.player == c && !m.capture
    ensures Index(m.srcX, m.srcY) == i && Index(m.destX, m.destY) == j
  {
    IndexCell(i);
    IndexCell(j);
    NewMove(c, i / 8, i % 8, j / 8, j % 8)
  }

  /** A move the enumeration can produce for colour c: a fresh move of c whose
      source and destination indices are both below 63. */
  predicate IsEnumerated(m: Move, c: Color) {
    && m.player == c && !m.capture && InBounds(m)
    && Index(m.srcX, m.srcY) < EnumBound && Index(m.destX, m.destY) < EnumBound
  }

  /** An enumerated move is the candidate of its own index pair. */
  lemma CandidateOf(m: Move, c: Color)
    requires IsEnumerated(m, c)
    ensures m == Candidate(c, Index(m.srcX, m.srcY), Index(m.destX, m.destY))
  {
    CellIndex(m.srcX, m.srcY);
    CellIndex(m.destX, m.destY);
  }

  /** The moves the two nested loops build, in loop order: the source index i
      in the outer loop, the destination index j in the inner one, both
      running from 0 to 62. */
  function Candidates(c: Color): seq<Move> {
    seq(EnumBound * EnumBound, k requires 0 <= k < EnumBound * EnumBound =>
      Candidate(c, k / EnumBound, k % EnumBound))
  }

  /** The loops build exactly the enumerated moves of colour c. */
  lemma CandidatesIff(c: Color)
    ensures forall m {:trigger m in Candidates(c)} :: m in Candidates(c) <==> IsEnumerated(m, c)
  {
    var ms := Candidates(c);
    forall m | IsEnumerated(m, c)
      ensures m in ms
    {
      var i, j := Index(m.srcX, m.srcY), Index(m.destX, m.destY);
      var k := i * EnumBound + j;
      assert k / EnumBound == i && k % EnumBound == j;
      CandidateOf(m, c);
      assert ms[k] == m;
    }
  }

  /** The candidates among ms that are structurally possible, in order. */
  function PossibleAmong(g: Grid, ms: seq<Move>): (r: seq<Move>)
    requires forall m :: m in ms ==> InBounds(m)
    ensures |r| <= |ms|
    ensures forall m {:trigger m in r} :: m in r <==> m in ms && IsMovePossible(g, m)
  {
    if ms == [] then []
    else (if IsMovePossible(g, ms[0]) then [ms[0]] else []) + PossibleAmong(g, ms[1..])
  }

  /** getAllPossibleMovesByPlayer: exactly the structurally possible moves of
      colour c whose source and destination indices are below 63. */
  function PossibleMoves(g: Grid, c: Color): (r: seq<Move>)
    ensures forall m {:trigger m in r} :: m in r <==> IsEnumerated(m, c) && IsMovePossible(g, m)
  {
    CandidatesIff(c);
    PossibleAmong(g, Candidates(c))
  }

  // ---------------------------------------------------------------------------
  // isChecked

  /** Some enumerated move of colour a reaches the cell of index k. */
  predicate Attacked(g: Grid, a: Color, k: int)
    requires 0 <= k < EnumBound
  {
    exists s :: 0 <= s < EnumBound && IsMovePossible(g, Candidate(a, s, k))
  }

  /** isChecked: the king's cell is the destination of some possible move of
      the opponent. The king's index is split into row and column with Java's
      truncating operators, so a missing king (-1) becomes (0, -1), which no
      move reaches; a king on index 63 is never reached either. */
  function IsChecked(g: Grid, c: Color): (r: bool)
    ensures r <==> var k := KingIndex(g, c); 0 <= k < EnumBound && Attacked(g, Opponent(c), k)
  {
    var k := KingIndex(g, c);
    var kingX, kingY := JavaDiv(k, 8), JavaRem(k, 8);
    ReachedIffAttacked(g, Opponent(c), k, kingX, kingY);
    exists m :: m in PossibleMoves(g, Opponent(c)) && m.destX == kingX && m.destY == kingY
  }

  /** The king's index split with Java's operators: a real index gives its row
      and column, the sentinel -1 gives (0, -1). */
  lemma KingSquare(k: int)
    requires -1 <= k < 64
    ensures k >= 0 ==> JavaDiv(k, 8) == k / 8 && JavaRem(k, 8) == k % 8
    ensures k == -1 ==> JavaDiv(k, 8) == 0 && JavaRem(k, 8) == -1
  {
  }

  /** Some enumerated possible move of colour a ends on the cell that the index
      k splits into exactly when k is an enumerated index that a attacks. */
  lemma ReachedIffAttacked(g: Grid, a: Color, k: int, kx: int, ky: int)
    requires -1 <= k < 64 && kx == JavaDiv(k, 8) && ky == JavaRem(k, 8)
    ensures (exists m :: m in PossibleMoves(g, a) && m.destX == kx && m.destY == ky) <==>
              0 <= k < EnumBound && Attacked(g, a, k)
  {
    KingSquare(k);
    if exists m :: m in PossibleMoves(g, a) && m.destX == kx && m.destY == ky {
      var m :| m in PossibleMoves(g, a) && m.destX == kx && m.destY == ky;
      ReachedIsAttacked(g, a, k, m);
    }
    if 0 <= k < EnumBound && Attacked(g, a, k) {
      var s :| 0 <= s < EnumBound && IsMovePossible(g, Candidate(a, s, k));
      AttackerIsEnumerated(g, a, k, s);
    }
  }

  lemma ReachedIsAttacked(g: Grid, a: Color, k: int, m: Move)
    requires 0 <= k < 64 && m in PossibleMoves(g, a) && m.destX == k / 8 && m.destY == k % 8
    ensures k < EnumBound && Attacked(g, a, k)
  {
    assert IsEnumerated(m, a) && IsMovePossible(g, m);
    CandidateOf(m, a);
    IndexCell(k);
    var s := Index(m.srcX, m.srcY);
    assert Index(m.destX, m.destY) == k;
    assert m == Candidate(a, s, k);
  }

  lemma AttackerIsEnumerated(g: Grid, a: Color, k: int, s: int)
    requires 0 <= k < EnumBound && 0 <= s < EnumBound && IsMovePossible(g, Candidate(a, s, k))
    ensures Candidate(a, s, k) in PossibleMoves(g, a)
    ensures Candidate(a, s, k).destX == k / 8 && Candidate(a, s, k).destY == k % 8
  {
    var m := Candidate(a, s, k);
    CellIndex(m.destX, m.destY);
    assert IsEnumerated(m, a);
  }

  /** A side without a king is never in check, and neither is a king standing
      on (7, 7), the cell the enumeration leaves out. */
  lemma UncheckableKings(g: Grid, c: Color)
    ensures (forall j :: 0 <= j < 64 ==> !IsKingAt(g, c, j)) ==> !IsChecked(g, c)
    ensures IsKingAt(g, c, 63) && (forall j :: 0 <= j < 63 ==> !IsKingAt(g, c, j)) ==> !IsChecked(g, c)
  {
  }
}
