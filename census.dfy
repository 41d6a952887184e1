/**
 * The squares holding one colour's pieces, in the row-major order in which
 * `makeBotMove` collects them (src/pages/Index.tsx:277-284), and how a move
 * changes their number.
 */
module Census {
  import opened Wrappers
  import opened Pieces
  import opened Rules
  import opened Moves

  /** A square's place in row-major order. */
  function Index(p: Pos): nat {
    16 * p.row + p.col
  }

  /** The square at place `k` in row-major order. */
  function SquareAt(k: int): (p: Pos)
    requires 0 <= k < 256
    ensures Index(p) == k
  {
    Pos(k / 16, k % 16)
  }

  /** The squares before place `k` that hold a piece of colour `c`, in row-major order. */
  function PiecesBelow(b: Grid, c: Color, k: nat): seq<Pos>
    requires IsGrid(b) && k <= 256
    reads b
  {
    if k == 0 then []
    else
      var p := SquareAt(k - 1);
      PiecesBelow(b, c, k - 1) + (if HasColor(b[p.row, p.col], c) then [p] else [])
  }

  /** The squares holding a piece of colour `c`, in row-major order. */
  function PiecesOf(b: Grid, c: Color): seq<Pos>
    requires IsGrid(b)
    reads b
  {
    PiecesBelow(b, c, 256)
  }

  /** One more step of the row-major scan passes square `(row, col)`. */
  lemma PiecesBelowStep(b: Grid, c: Color, row: Coord, col: Coord)
    requires IsGrid(b)
    ensures PiecesBelow(b, c, 16 * row + col + 1) ==
      PiecesBelow(b, c, 16 * row + col) + (if HasColor(b[row, col], c) then [Pos(row, col)] else [])
  {
    IndexInjective(SquareAt(16 * row + col), Pos(row, col));
  }

  /** Row-major places identify squares. */
  lemma IndexInjective(p: Pos, q: Pos)
    requires Index(p) == Index(q)
    ensures p == q
  {
  }

  lemma {:induction false} PiecesBelowMembers(b: Grid, c: Color, k: nat)
    requires IsGrid(b) && k <= 256
    ensures forall p: Pos :: p in PiecesBelow(b, c, k) <==> Index(p) < k && HasColor(b[p.row, p.col], c)
  {
    if k > 0 {
      PiecesBelowMembers(b, c, k - 1);
      var q := SquareAt(k - 1);
      forall p: Pos
        ensures p in PiecesBelow(b, c, k) <==> Index(p) < k && HasColor(b[p.row, p.col], c)
      {
        if Index(p) == k - 1 {
          IndexInjective(p, q);
        }
      }
    }
  }

  lemma {:induction false} PiecesBelowOrdered(b: Grid, c: Color, k: nat)
    requires IsGrid(b) && k <= 256
    ensures forall i :: 0 <= i < |PiecesBelow(b, c, k)| ==> Index(PiecesBelow(b, c, k)[i]) < k
    ensures forall i, j :: 0 <= i < j < |PiecesBelow(b, c, k)| ==>
      Index(PiecesBelow(b, c, k)[i]) < Index(PiecesBelow(b, c, k)[j])
  {
    if k > 0 {
      PiecesBelowOrdered(b, c, k - 1);
    }
  }

  /**
   * The pieces of colour `c` are listed each exactly once, in row-major
   * order, and nothing else is listed.
   */
  lemma PiecesOfExactly(b: Grid, c: Color)
    requires IsGrid(b)
    ensures forall p: Pos :: p in PiecesOf(b, c) <==> HasColor(b[p.row, p.col], c)
    ensures forall i, j :: 0 <= i < j < |PiecesOf(b, c)| ==>
      Index(PiecesOf(b, c)[i]) < Index(PiecesOf(b, c)[j])
  {
    PiecesBelowMembers(b, c, 256);
    PiecesBelowOrdered(b, c, 256);
  }

  /** 1 when square `p` comes before place `k` and holds a piece of colour `c`. */
  function Counted(b: Grid, p: Pos, c: Color, k: nat): nat
    requires IsGrid(b)
    reads b
  {
    if Index(p) < k && HasColor(b[p.row, p.col], c) then 1 else 0
  }

  /**
   * Two boards that differ at most on squares `x` and `y` list the same
   * number of pieces of a colour, once `x` and `y` are set aside.
   */
  lemma {:induction false} CountOffTwo(b1: Grid, b2: Grid, c: Color, x: Pos, y: Pos, k: nat)
    requires IsGrid(b1) && IsGrid(b2) && k <= 256 && x != y
    requires forall r: Coord, col: Coord :: Pos(r, col) != x && Pos(r, col) != y ==>
      b1[r, col] == b2[r, col]
    ensures |PiecesBelow(b1, c, k)| + Counted(b2, x, c, k) + Counted(b2, y, c, k) ==
            |PiecesBelow(b2, c, k)| + Counted(b1, x, c, k) + Counted(b1, y, c, k)
  {
    if k > 0 {
      CountOffTwo(b1, b2, c, x, y, k - 1);
      var q := SquareAt(k - 1);
      CountedStep(b1, x, c, k);
      CountedStep(b1, y, c, k);
      CountedStep(b2, x, c, k);
      CountedStep(b2, y, c, k);
      assert |PiecesBelow(b1, c, k)| == |PiecesBelow(b1, c, k - 1)| + (if HasColor(b1[q.row, q.col], c) then 1 else 0);
      assert |PiecesBelow(b2, c, k)| == |PiecesBelow(b2, c, k - 1)| + (if HasColor(b2[q.row, q.col], c) then 1 else 0);
      if q != x && q != y {
        assert b1[q.row, q.col] == b2[q.row, q.col];
      }
    }
  }

  /** Moving the scan one place on counts square `p` exactly when it is the square passed. */
  lemma CountedStep(b: Grid, p: Pos, c: Color, k: nat)
    requires IsGrid(b) && 0 < k <= 256
    ensures Counted(b, p, c, k) ==
      Counted(b, p, c, k - 1) + (if p == SquareAt(k - 1) && HasColor(b[p.row, p.col], c) then 1 else 0)
  {
    if Index(p) == k - 1 {
      IndexInjective(p, SquareAt(k - 1));
    }
  }

  /**
   * A legal move keeps every piece of the mover and removes exactly the enemy
   * piece it lands on, if any.
   */
  lemma MoveCounts(before: Grid, after: Grid, side: Color, from: Pos, to: Pos)
    requires IsGrid(before) && IsGrid(after)
    requires IsValidMove(before, side, from, to)
    requires MoveApplied(before, after, from, to)
    ensures |PiecesOf(after, side)| == |PiecesOf(before, side)|
    ensures |PiecesOf(after, Opposite(side))| + (if before[to.row, to.col].Some? then 1 else 0) ==
            |PiecesOf(before, Opposite(side))|
  {
    CountOffTwo(after, before, side, from, to, 256);
    CountOffTwo(after, before, Opposite(side), from, to, 256);
  }
}
