/** The 8x8 grid of optional pieces that the board owns and that move legality
    queries. Coordinates are (x, y) with x the first index (the row) and y the
    second (the column), as in Board's pieces[x][y]. */
module ChessGrid {
  import opened ChessPiece

  predicate IsGrid(g: seq<seq<Option<Piece>>>) {
    |g| == 8 && forall x :: 0 <= x < 8 ==> |g[x]| == 8
  }

  type Grid = g: seq<seq<Option<Piece>>> | IsGrid(g)
    witness seq(8, _ => seq(8, _ => None))

  predicate OnBoard(x: int, y: int) {
    0 <= x < 8 && 0 <= y < 8
  }

  /** getPiece: the content of one cell. */
  function At(g: Grid, x: int, y: int): Option<Piece>
    requires OnBoard(x, y)
  {
    g[x][y]
  }

  /** Whether the cell c holds a piece. */
  predicate Occupied(g: Grid, c: (int, int))
    requires OnBoard(c.0, c.1)
  {
    g[c.0][c.1].Some?
  }

  /** The grid with no piece on it. */
  function EmptyGrid(): (g: Grid)
    ensures forall x, y :: OnBoard(x, y) ==> g[x][y] == None
  {
    seq(8, _ => seq(8, _ => None))
  }

  /** Assignment to one cell, pieces[x][y] = v: that cell reads v afterwards and
      every other cell keeps its content. */
  function SetCell(g: Grid, x: int, y: int, v: Option<Piece>): (r: Grid)
    requires OnBoard(x, y)
    ensures r[x][y] == v
    ensures forall i, j :: OnBoard(i, j) && (i != x || j != y) ==> r[i][j] == g[i][j]
  {
    g[x := g[x][y := v]]
  }

  /** Two grids that agree on every cell are the same grid. */
  lemma GridExt(g: Grid, h: Grid)
    requires forall i, j :: OnBoard(i, j) ==> g[i][j] == h[i][j]
    ensures g == h
  {
    forall i | 0 <= i < 8
      ensures g[i] == h[i]
    {
      assert forall j :: 0 <= j < 8 ==> g[i][j] == h[i][j];
    }
  }
}
