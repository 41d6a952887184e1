/**
 * What `makeMove` does to the grid (src/pages/Index.tsx:248-268), stated as
 * a relation between the board before and the board after.
 */
module Moves {
  import opened Wrappers
  import opened Pieces
  import opened Rules

  /** The contents of a square after its piece has moved: flagged as moved. */
  function Moved(cell: Option<Piece>): Option<Piece> {
    match cell
    case None => None
    case Some(p) => Some(p.(hasMoved := true))
  }

  /**
   * `after` is `before` with the piece on `from` carried to `to` (marked as
   * moved) and `from` emptied; `from` is written last, so a move onto its own
   * square empties it. Every other square is as it was.
   */
  ghost predicate MoveApplied(before: Grid, after: Grid, from: Pos, to: Pos)
    requires IsGrid(before) && IsGrid(after)
    reads before, after
  {
    && after[from.row, from.col] == None
    && (from != to ==> after[to.row, to.col] == Moved(before[from.row, from.col]))
    && forall r: Coord, c: Coord :: Pos(r, c) != from && Pos(r, c) != to ==>
         after[r, c] == before[r, c]
  }

  /**
   * A move cannot be played twice in a row: its source square is empty
   * afterwards, so no move from it is legal for either side.
   */
  lemma NoReplay(before: Grid, after: Grid, from: Pos, to: Pos, side: Color, next: Pos)
    requires IsGrid(before) && IsGrid(after)
    requires MoveApplied(before, after, from, to)
    ensures !IsValidMove(after, side, from, next)
  {
  }

  /**
   * A legal move leaves the mover's piece, marked as moved, on the target;
   * what it replaces there, if anything, is an enemy piece.
   */
  lemma LegalMoveOutcome(before: Grid, after: Grid, side: Color, from: Pos, to: Pos)
    requires IsGrid(before) && IsGrid(after)
    requires IsValidMove(before, side, from, to)
    requires MoveApplied(before, after, from, to)
    ensures HasColor(after[to.row, to.col], side)
    ensures after[to.row, to.col].value == before[from.row, from.col].value.(hasMoved := true)
    ensures before[to.row, to.col].Some? ==> HasColor(before[to.row, to.col], Opposite(side))
  {
  }

  /**
   * After a move by `mover`, every piece of the other colour stands on the
   * same square, unchanged, on the board from before the move.
   */
  lemma OpponentUntouched(before: Grid, after: Grid, from: Pos, to: Pos, mover: Color)
    requires IsGrid(before) && IsGrid(after)
    requires MoveApplied(before, after, from, to)
    requires HasColor(before[from.row, from.col], mover)
    ensures forall r: Coord, c: Coord :: HasColor(after[r, c], Opposite(mover)) ==>
      after[r, c] == before[r, c]
  {
  }
}
