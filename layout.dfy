/**
 * The starting position built by `initializeBoard`
 * (src/pages/Index.tsx:92-142).
 */
module Layout {
  import opened Wrappers
  import opened Pieces
  import opened Rules
  import opened Census

  /** The back rank, column 0 to column 15, for both colours. */
  const BackRank: seq<Kind> :=
    [Rook, Knight, Bishop, Necromancer, Dragon, Mage, Queen, King,
     Archangel, Warlock, Mage, Dragon, Necromancer, Bishop, Knight, Rook]

  /**
   * The square (r, c) of the starting position: white's back rank on row 15
   * and its pawns on row 14, black's back rank on row 0 and its pawns on row 1.
   */
  function InitialCell(r: Coord, c: Coord): Option<Piece> {
    if r == 15 then Some(NewPiece(BackRank[c], White))
    else if r == 14 then Some(NewPiece(Pawn, White))
    else if r == 1 then Some(NewPiece(Pawn, Black))
    else if r == 0 then Some(NewPiece(BackRank[c], Black))
    else None
  }

  /**
   * Writes one colour's sixteen back-rank pieces into row `row`: the source's
   * sixteen assignments, one per column, made as one simultaneous update.
   */
  method PlaceBackRank(b: Grid, row: Coord, color: Color)
    requires IsGrid(b)
    modifies b
    ensures forall c: Coord :: b[row, c] == Some(NewPiece(BackRank[c], color))
    ensures forall r: Coord, c: Coord :: r != row ==> b[r, c] == old(b[r, c])
  {
    forall c: Coord {
      b[row, c] := Some(NewPiece(BackRank[c], color));
    }
  }

  /** Writes one colour's sixteen pawns into row `row`. */
  method PlacePawns(b: Grid, row: Coord, color: Color)
    requires IsGrid(b)
    modifies b
    ensures forall c: Coord :: b[row, c] == Some(NewPiece(Pawn, color))
    ensures forall r: Coord, c: Coord :: r != row ==> b[r, c] == old(b[r, c])
  {
    for col := 0 to Size
      invariant forall c: Coord :: c < col ==> b[row, c] == Some(NewPiece(Pawn, color))
      invariant forall r: Coord, c: Coord :: (r != row || c >= col) ==> b[r, c] == old(b[r, c])
    {
      b[row, col] := Some(NewPiece(Pawn, color));
    }
  }

  /** A fresh 16x16 board holding the starting position. */
  method InitialBoard() returns (b: Grid)
    ensures fresh(b) && IsGrid(b)
    ensures IsInitial(b)
  {
    b := new Option<Piece>[Size, Size]((r, c) => None);
    PlaceBackRank(b, 15, White);
    PlacePawns(b, 14, White);
    PlaceBackRank(b, 0, Black);
    PlacePawns(b, 1, Black);
  }

  // ---------------------------------------------------------------------
  // Properties of the starting position
  // ---------------------------------------------------------------------

  /** The rows that colour `c` starts on. */
  predicate HomeRow(c: Color, r: Coord) {
    if c == White then r >= 14 else r <= 1
  }

  /** Every square of `b` is that of the starting position. */
  predicate IsInitial(b: Grid)
    requires IsGrid(b)
    reads b
  {
    forall r: Coord, c: Coord :: b[r, c] == InitialCell(r, c)
  }

  /**
   * Scanning the starting position in row-major order, black's 32 pieces
   * come first (rows 0 and 1) and white's last (rows 14 and 15).
   */
  lemma {:induction false} InitialCountBelow(b: Grid, c: Color, k: nat)
    requires IsGrid(b) && IsInitial(b) && k <= 256
    ensures |PiecesBelow(b, c, k)| ==
      if c == White then (if k <= 224 then 0 else k - 224)
      else (if k <= 32 then k else 32)
  {
    if k > 0 {
      InitialCountBelow(b, c, k - 1);
      var q := SquareAt(k - 1);
      assert HasColor(b[q.row, q.col], c) <==> HomeRow(c, q.row);
    }
  }

  /** Each side starts with 32 pieces. */
  lemma InitialPopulation(b: Grid)
    requires IsGrid(b) && IsInitial(b)
    ensures |PiecesOf(b, White)| == 32
    ensures |PiecesOf(b, Black)| == 32
  {
    InitialCountBelow(b, White, 256);
    InitialCountBelow(b, Black, 256);
  }

  /** The piece `p` with its colour swapped. */
  function Recolored(cell: Option<Piece>): Option<Piece> {
    match cell
    case None => None
    case Some(p) => Some(p.(color := Opposite(p.color)))
  }

  /**
   * The starting position is its own mirror image: reflecting the rows and
   * swapping the colours gives it back. Rows 2 to 13 are empty, and every
   * piece starts unmoved with the flags of its kind.
   */
  lemma InitialSymmetry(r: Coord, c: Coord)
    ensures InitialCell(15 - r, c) == Recolored(InitialCell(r, c))
    ensures 2 <= r <= 13 <==> InitialCell(r, c).None?
    ensures InitialCell(r, c).Some? ==> InitialCell(r, c).value == NewPiece(InitialCell(r, c).value.kind, InitialCell(r, c).value.color)
  {
  }

  /**
   * On the starting board every white pawn may open with two steps, and may
   * not go three; black's pawns likewise, and neither side may move the
   * other's pawns.
   */
  lemma OpeningPawnMoves(b: Grid, c: Coord)
    requires IsGrid(b) && IsInitial(b)
    ensures IsValidMove(b, White, Pos(14, c), Pos(13, c))
    ensures IsValidMove(b, White, Pos(14, c), Pos(12, c))
    ensures !IsValidMove(b, White, Pos(14, c), Pos(11, c))
    ensures IsValidMove(b, Black, Pos(1, c), Pos(3, c))
    ensures !IsValidMove(b, Black, Pos(14, c), Pos(12, c))
    ensures !IsValidMove(b, White, Pos(1, c), Pos(3, c))
  {
  }
}
