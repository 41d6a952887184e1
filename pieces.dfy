/**
 * Pieces, squares and the 16x16 board of the chess variant
 * (src/pages/Index.tsx:11-28).
 */
module Pieces {
  import opened Wrappers

  datatype Color = White | Black

  datatype Kind =
    | King | Queen | Rook | Bishop | Knight | Pawn
    | Mage | Dragon | Necromancer | Archangel | Warlock

  /**
   * A piece. The source's optional fields are plain booleans here: an absent
   * flag reads as false. `reviveCount` is set only on necromancers.
   */
  datatype Piece = Piece(
    kind: Kind,
    color: Color,
    hasMoved: bool,
    canTeleport: bool,
    canFly: bool,
    canRevive: bool,
    reviveCount: Option<nat>)

  /** Board size along each axis. */
  const Size := 16

  /** A row or column index. */
  type Coord = x: int | 0 <= x < 16

  datatype Pos = Pos(row: Coord, col: Coord)

  datatype Move = Move(from: Pos, to: Pos)

  /** The board: a grid of squares, each empty or holding one piece. */
  type Grid = array2<Option<Piece>>

  predicate IsGrid(b: Grid) {
    b.Length0 == Size && b.Length1 == Size
  }

  function Opposite(c: Color): (o: Color)
    ensures o != c
  {
    if c == White then Black else White
  }

  /** Whether a square holds a piece of colour `c`. */
  predicate HasColor(cell: Option<Piece>, c: Color) {
    cell.Some? && cell.value.color == c
  }

  /** The piece a fresh game places, with the capability flags of its kind. */
  function NewPiece(kind: Kind, color: Color): (p: Piece)
  {
    Piece(kind, color, false, kind == Mage, kind == Dragon, kind == Necromancer,
          if kind == Necromancer then Some(0) else None)
  }
}
