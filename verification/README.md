# Chess rules engine, modelled in Dafny

This project models the rules engine of a chess variant. The variant has the six
standard pieces plus two non-standard ones, CANNON and ALFIL. The engine has three
parts:

- **Pieces**: a colour, a type and a `hasMoved` flag.
- **Move legality** (`Move`): pure predicates over a board snapshot. They decide
  whether the piece on the source cell can structurally reach the destination:
  its geometry, path blocking, and the rule that it may not land on its own
  colour.
- **The board** (`Board`): a state machine. Its state is an 8×8 grid of optional
  pieces, a LIFO stack of removed pieces, and a history of executed moves with the
  most recent first. Its operations are move execution, removal and undo;
  `makeMove`, which runs a probe that executes the move, checks for self-check and
  rolls back; and check, checkmate and stalemate detection by brute-force
  enumeration of moves.

Coordinates are `(x, y)`: `x` is the row (the first grid index) and `y` is the
column. WHITE moves towards row 0 and BLACK towards row 7. Every mutator of
`Board` is modelled as a pure function from the old board to the new one.

Modules, one per file:

| file | module | models |
|---|---|---|
| pieces.dfy | `ChessPiece` | `ChessPiece`, colours, piece types |
| grid.dfy | `ChessGrid` | the 8×8 grid the board owns and `Move` queries |
| moves.dfy | `ChessMove` | `Move`: shapes, the path scan, per-piece rules |
| board.dfy | `ChessBoard` | setup, `addPiece`, `removePiece`, `movePiece`, `undoMove` |
| check.dfy | `Check` | `getKingByColor`, `getAllPossibleMovesByPlayer`, `isChecked` |
| play.dfy | `Play` | `willBeChecked`, `makeMove`, `getAllValidMovesByPlayer`, `isCheckmate`, `isStalemate` |

The Java code's oddities are modelled exactly as written. The lemmas below state what
each one does:

- **Path scan.** Along `y` the scan covers every cell between source and
  destination. Along `x` and on diagonals it stops at `|dx| - 2`. So it never
  looks at the cell whose `x` is one less than the larger `x`
  (`PathBlockedExact`, `PathScanMissesCell`). On the initial board, this lets
  each side's rook on column 0 jump over its own pawn
  (`InitialRookJumpsOwnPawn`).
- **Pawn capture.** It tests `dy == factor` and `|dx| == 1`
  (`PawnCaptureQuirk`). The pawn's straight advance ignores an opposing piece
  on the destination and whatever stands on the cell it crosses; only a piece
  of its own colour on the destination stops it (`PawnMoveFacts`).
- **Cannon.** It needs a *blocked* path (`CannonMoveIff`).
- **Enumeration range.** The enumeration runs over cell indices 0..62, so cell
  (7, 7) is never a source or a destination. A king there is never in check
  (`UncheckableKings`).
- **Sticky capture flag.** The probe in `willBeChecked` sets a move's capture
  flag when it takes a piece, and the undo does not clear it. So the valid-move
  list holds its moves flagged (`Probed`, `ValidMovesIff`).
- **Undo and `hasMoved`.** Undo does not restore the `hasMoved` flag
  (`MakeMoveThenUndo`).
- **Missing king.** `getKingByColor` returns -1. Java's truncating `/` and `%`
  split that into (0, -1), and no move reaches that cell. So a side without a
  king is never in check. This is modelled explicitly with `JavaDiv`/`JavaRem`
  (`KingSquare`, `UncheckableKings`).

## Model

| member | source | states |
|---|---|---|
| ChessPiece.Opponent | src/main/java/game/Board.java:148 | the opposing side, `(color + 1) % 2` on player indices, differs from the given side |
| ChessPiece.NewPiece | src/main/java/game/piece/ChessPiece.java:15-19 | a new piece has the given colour and type and `hasMoved == false` |
| ChessPiece.SetHasMoved | src/main/java/game/piece/ChessPiece.java:29-35 | after `setHasMoved(b)` the flag reads `b`; colour and type are unchanged |
| ChessPiece.SetHasMovedRestores | src/main/java/game/piece/ChessPiece.java:33-35 | setting the flag and then setting it back to its old value gives the original piece |
| ChessPiece.PieceEquals | src/main/java/game/piece/ChessPiece.java:37-48 | `equals` holds iff colour, type and flag all match, i.e. iff the pieces are the same value; pieces that differ in colour or type are unequal |
| ChessMove.NewMove | src/main/java/game/Move.java:24-32 | a new move carries the given colour and cells and is not a capture |
| ChessMove.MoveEquals | src/main/java/game/Move.java:227-243 | `equals` holds iff source, destination, capture flag and colour match, i.e. iff the moves are the same value |
| ChessMove.LinearDiagonalDisjoint | src/main/java/game/Move.java:158-168 | no move is both linear and diagonal; a zero displacement is neither |
| ChessMove.ScanCell | src/main/java/game/Move.java:176-214 | every cell the path scan inspects is on the board |
| ChessMove.PathBlockedExact | src/main/java/game/Move.java:176-214 | the path is blocked iff some cell strictly between the ends, other than the one the scan skips, is occupied |
| ChessMove.PathBlockedSound | src/main/java/game/Move.java:176-214 | a blocked path has an occupied cell strictly between source and destination; a move that is neither linear nor diagonal is never blocked |
| ChessMove.PathBlockedCompleteAlongY | src/main/java/game/Move.java:181-187 | along `y` (`dx == 0`), blocked iff some cell strictly between the ends is occupied |
| ChessMove.PathScanMissesCell | src/main/java/game/Move.java:188-211 | when `x` changes by two or more, a grid occupied only at the skipped cell has an occupied line yet an unblocked path |
| ChessMove.IsMovePossible | src/main/java/game/Move.java:40-70 | a possible move has the mover's own piece on the source, never ends on the mover's colour, and never stays on its source |
| ChessMove.KnightMoveIff | src/main/java/game/Move.java:78-80 | a knight move is possible iff `{|dx|, |dy|} = {1, 2}` and the destination is not the mover's colour; intervening cells do not matter |
| ChessMove.KingMoveIff | src/main/java/game/Move.java:109-114 | a king move is possible iff `|dx| ≤ 1`, `|dy| ≤ 1` and the destination is not the mover's colour |
| ChessMove.AlfilMoveIff | src/main/java/game/Move.java:102-107 | an alfil move is possible iff `|dx| = |dy| = 2` and the destination is not the mover's colour |
| ChessMove.SliderMoveIff | src/main/java/game/Move.java:81-89 | rook, bishop and queen need their line and an unblocked path; along `y` that means every cell between the ends is empty |
| ChessMove.CannonMoveIff | src/main/java/game/Move.java:95-97 | a cannon move is possible iff linear, blocked and not onto its own colour; so it spans at least two cells over an occupied one |
| ChessMove.PawnMoveIff | src/main/java/game/Move.java:116-148 | the pawn rule, with forward −1 for WHITE and +1 for BLACK: a capture step, or a forward advance of one (two while unmoved) onto a cell not of its colour |
| ChessMove.PawnMoveFacts | src/main/java/game/Move.java:129-148 | a pawn reaches an empty cell only with `dy == 0`; a double step needs an unmoved pawn; a pawn may advance straight onto an opposing piece |
| ChessMove.PawnCaptureQuirk | src/main/java/game/Move.java:133 | a pawn captures one step forward in `y` and back in `x`, but not one step forward in `x` and back in `y` |
| ChessBoard.InitialBoard | src/main/java/game/Board.java:36-41 | the start position: black R N B Q K B N R on row 0, black pawns on row 1, white pawns on row 6, white back rank on row 7, rows 2–5 empty, nothing moved, empty stack and history |
| ChessBoard.AddPiece | src/main/java/game/Board.java:242-244 | direct placement changes only the given cell; stack and history untouched |
| ChessBoard.RemovePiece | src/main/java/game/Board.java:233-240 | the cell becomes empty, its piece is pushed on the stack, a removal entry heads the history; other cells unchanged |
| ChessBoard.MovePiece | src/main/java/game/Board.java:214-231 | the source piece lands on the destination and the source is emptied. On taking an opposing piece: the piece is pushed on the stack, the move is flagged as a capture, and the history grows by a removal entry then the move. Otherwise: the history grows by the move alone and the stack is unchanged |
| ChessBoard.UndoMove | src/main/java/game/Board.java:83-112 | with an empty history it returns false and changes nothing; otherwise it returns true and consumes history |
| ChessBoard.RemoveUndoRoundTrip | src/main/java/game/Board.java:95-98 | `removePiece` then `undoMove` restores the board exactly |
| ChessBoard.MoveUndoRoundTrip | src/main/java/game/Board.java:101-111 | `movePiece` then `undoMove` restores grid, stack and history exactly, for an occupied source and a destination not of its colour |
| ChessBoard.UndoAfterOwnColourMoveEmptiesDest | src/main/java/game/Board.java:221-228 | when the destination holds the mover's colour (or is the source), undo leaves it empty, so the round trip fails |
| ChessBoard.RookCrossesTwoRows | src/main/java/game/Move.java:81-83 | a rook two rows away along `x`, with the destination not of its colour, may move whatever stands between, since the scan inspects nothing |
| ChessBoard.MiddleRowIsInterior | src/main/java/game/Move.java:188-193 | the row between the ends of a two-row move is strictly inside the move's line, so a piece there makes the line occupied |
| ChessBoard.RookJumpsMiddleRow | src/main/java/game/Move.java:188-193 | a rook may move two rows along `x` onto an empty cell over an occupied one |
| ChessBoard.InitialHomeColumn | src/main/java/game/Board.java:246-264 | on the initial board column 0 holds each side's unmoved rook on its home row, its pawn in front, and an empty cell beyond |
| ChessBoard.InitialRookJumpsOwnPawn | src/main/java/game/Move.java:188-193 | on the initial board each side's rook on column 0 may move two rows forward over its own pawn: White (7, 0) to (5, 0), Black (0, 0) to (2, 0) |
| Check.FindKing | src/main/java/game/Board.java:288-295 | the row-major scan finds the first cell at or after `k` holding the colour's king, or reports none |
| Check.KingIndex | src/main/java/game/Board.java:285-298 | `getKingByColor` is the index of the first king cell, or −1 exactly when the colour has no king |
| Check.KingSquare | src/main/java/game/Board.java:145-146 | splitting the king index with Java's operators gives its row and column, and (0, −1) for the sentinel |
| Check.Candidate | src/main/java/game/Board.java:197 | the move built for index pair `(i, j)` is fresh, on the board, and has source index `i` and destination index `j` |
| Check.CandidatesIff | src/main/java/game/Board.java:195-197 | the nested loops build exactly the fresh moves of the colour whose source and destination indices are both below 63 |
| Check.PossibleAmong | src/main/java/game/Board.java:196-202 | the filter keeps exactly the candidates whose move is possible, and never grows the list |
| Check.PossibleMoves | src/main/java/game/Board.java:193-204 | `getAllPossibleMovesByPlayer` holds exactly the possible moves of the colour with both indices below 63 |
| Check.IsChecked | src/main/java/game/Board.java:144-154 | in check iff the king's index is below 63 and some enumerated possible opposing move ends on it |
| Check.ReachedIffAttacked | src/main/java/game/Board.java:148-152 | some listed opposing move ends on the split king cell iff the king index is enumerated and attacked |
| Check.UncheckableKings | src/main/java/game/Board.java:195-196 | a side without a king, or whose king stands on (7, 7), is never in check |
| Play.WillBeChecked | src/main/java/game/Board.java:163-170 | the probe reports whether the mover is in check after executing the move; for an occupied source and a destination not of the mover's colour, its execute-then-undo hands back exactly the board it was given |
| Play.Probed | src/main/java/game/Board.java:224-227 | the move as the probe leaves it is flagged as a capture iff it already was or its destination holds an opposing piece; nothing else about it changes |
| Play.ProbedInjective | src/main/java/game/Board.java:183-185 | two unflagged moves whose probed copies are equal are the same move |
| Play.Commit | src/main/java/game/Board.java:69-74 | committing puts the source piece, flagged as moved, on the destination; empties the source; keeps every other cell; and logs the move |
| Play.MakeMove | src/main/java/game/Board.java:59-75 | succeeds iff the move is possible and does not leave the mover in check; on failure the board is unchanged, on success it is the committed board |
| Play.MakeMoveThenUndo | src/main/java/game/Board.java:69-74 | undoing a successful `makeMove` restores everything except that the moved piece keeps `hasMoved == true` |
| Play.ValidAmong | src/main/java/game/Board.java:182-187 | every candidate that is possible and does not leave the mover in check is in the list, as the probe left it; every entry is such a probed candidate; the list never grows |
| Play.ValidMovesIff | src/main/java/game/Board.java:179-190 | an enumerated move's probed copy is in `getAllValidMovesByPlayer` iff the move is legal; every entry is the probed copy of a legal enumerated move, so it is flagged as a capture exactly when it takes an opposing piece |
| Play.NoValidMoveIff | src/main/java/game/Board.java:122 | the valid-move list is empty iff no enumerated move is legal |
| Play.IsCheckmate | src/main/java/game/Board.java:120-123 | checkmate iff in check and no enumerated move is legal |
| Play.IsStalemate | src/main/java/game/Board.java:132-135 | stalemate iff not in check and no enumerated move is legal |
| Play.EndOfGame | src/main/java/game/Board.java:120-135 | checkmate and stalemate exclude each other; one of them holds iff `makeMove` refuses every enumerated move |

## Left out

- The Swing GUI, the console game loop with its input parsing, and `Player`'s
  name and win/draw/loss counters. They are presentation and bookkeeping. Of
  `Player` the model keeps only the colour; index 0 is WHITE and 1 is BLACK.
  `isCheckmate`, `isStalemate` and `isChecked` take a `Color` instead of a player
  index.
- `printBoard` and every console diagnostic: output only.
- `Board.equals`, which holds for any two boards: it plays no part in the rules.
- The board reference inside `Move` and its comparison in `Move.equals`. There is
  one board per game, and the grid or board is passed to every operation instead.
- Object identity and aliasing. Pieces are values in cells. `setHasMoved` on the
  moving piece becomes a write of the updated piece to the source cell.
- ChessBoard.MovePiece: the capture flag in the history is recomputed on every
  execution. `movePiece` only ever sets the flag to true, so a `Move` object
  reused after a capture would keep a stale flag. For every freshly constructed
  move the two agree.
- ChessBoard.MovePiece: requires `CanExecute`, an occupied source or an empty
  destination. With an empty source and an occupied destination `movePiece`
  throws a NullPointerException reading the missing piece's colour
  (Board.java:224). The model does not represent that exception.
- ChessBoard.RemovePiece: requires an occupied cell. On an empty cell
  `removePiece` pushes null on the removed stack and then throws a
  NullPointerException building the removal entry (Board.java:234-238). The
  model represents neither the null entry nor the exception.
- Play.MakeMove: a refused move is modelled by its result and the unchanged
  board. The Java `Move` object the caller keeps may have had its capture flag
  set by the probe (Board.java:64). The model returns no move.
- Coordinates outside 0..7 are excluded by preconditions (`InBounds`, `OnBoard`).
  The Java code may throw an index exception on them or return false.
  `isMovePossible` reads the source cell first (Move.java:41-48), and a failed
  shape test short-circuits before any other cell is read: a knight at (7, 1)
  asked to reach (9, 9) gets false. The only off-board coordinates the model
  keeps are the (−1, −1) destinations of removal entries in the history.
- UndoMove: required to be in a state where `undoMove` does not throw
  (`UndoDefined`). This excludes a popped empty stack or list and an entry off
  the board. The round-trip lemmas show that the states `movePiece` and
  `removePiece` produce meet it.
- Concrete checkmate and stalemate positions are not worked out. Deciding one
  takes thousands of nested move evaluations. The general statements are
  `Play.IsCheckmate`, `Play.IsStalemate` and `Play.EndOfGame`.
- Getters (`getPiece`, the `Move` getters, `setCapture`) are field reads and
  writes, folded into the functions above.
