/**
 * The random bot of `makeBotMove` (src/pages/Index.tsx:276-301). The source
 * draws from `Math.random`; here the draws are a parameter `rand`, whose
 * i-th value is the i-th number `Math.random` would return.
 */
module Bot {
  import opened Wrappers
  import opened Pieces
  import opened Rules
  import opened Moves
  import opened Layout
  import opened Census

  /** A number drawn by `Math.random`: at least 0 and below 1. */
  type Unit = x: real | 0.0 <= x < 1.0

  /** `Math.floor(u * n)`: an index below `n`. */
  function Pick(u: Unit, n: nat): (k: nat)
    requires n > 0
    ensures k < n
  {
    assert 0.0 <= u * (n as real) < n as real by {
      assert u * (n as real) <= 1.0 * (n as real) - (1.0 - u) * (n as real);
    }
    (u * (n as real)).Floor
  }

  // ---------------------------------------------------------------------
  // Collecting the bot's pieces
  // ---------------------------------------------------------------------

  /** The nested scan that fills `botPieces`. */
  method CollectPieces(b: Grid, c: Color) returns (pieces: seq<Pos>)
    requires IsGrid(b)
    ensures pieces == PiecesOf(b, c)
  {
    pieces := [];
    for row := 0 to Size
      invariant pieces == PiecesBelow(b, c, 16 * row)
    {
      for col := 0 to Size
        invariant pieces == PiecesBelow(b, c, 16 * row + col)
      {
        PiecesBelowStep(b, c, row, col);
        if b[row, col].Some? && b[row, col].value.color == c {
          pieces := pieces + [Pos(row, col)];
        }
      }
    }
  }

  // ---------------------------------------------------------------------
  // Sampling
  // ---------------------------------------------------------------------

  /**
   * The move tried at attempt `i`: a piece picked from `candidates` and a
   * target row and column, from the draws 3i, 3i+1 and 3i+2.
   */
  function SampleAt(candidates: seq<Pos>, rand: nat -> Unit, i: nat): (m: Move)
    requires |candidates| > 0
    ensures m.from in candidates
  {
    Move(candidates[Pick(rand(3 * i), |candidates|)],
         Pos(Pick(rand(3 * i + 1), 16), Pick(rand(3 * i + 2), 16)))
  }

  /**
   * Tries up to 20 moves per candidate and returns the first legal one.
   * `tried` is the number of attempts made.
   */
  method SampleMove(b: Grid, side: Color, candidates: seq<Pos>, rand: nat -> Unit)
    returns (m: Option<Move>, tried: nat)
    requires IsGrid(b)
    ensures tried <= 20 * |candidates|
    ensures m.None? ==> tried == 20 * |candidates|
    ensures m.Some? ==> 0 < tried && m.value == SampleAt(candidates, rand, tried - 1)
    ensures m.Some? ==> IsValidMove(b, side, m.value.from, m.value.to)
    ensures forall j :: 0 <= j < tried && (m.None? || j < tried - 1) ==>
      !IsValidMove(b, side, SampleAt(candidates, rand, j).from, SampleAt(candidates, rand, j).to)
  {
    var attempts := |candidates| * 20;
    for i := 0 to attempts
      invariant forall j :: 0 <= j < i ==> !IsValidMove(b, side, SampleAt(candidates, rand, j).from, SampleAt(candidates, rand, j).to)
    {
      var from := candidates[Pick(rand(3 * i), |candidates|)];
      var to := Pos(Pick(rand(3 * i + 1), 16), Pick(rand(3 * i + 2), 16));
      if IsValidMove(b, side, from, to) {
        return Some(Move(from, to)), i + 1;
      }
    }
    return None, attempts;
  }

  /**
   * The bot's choice for black on board `b`: scan for black pieces, then
   * sample. Whatever it returns is legal for black; if black has no legal
   * move at all it returns nothing.
   */
  method ChooseBotMove(b: Grid, rand: nat -> Unit) returns (m: Option<Move>, tried: nat)
    requires IsGrid(b)
    ensures tried <= 20 * |PiecesOf(b, Black)|
    ensures m.Some? ==> IsValidMove(b, Black, m.value.from, m.value.to)
    ensures m.Some? ==> 0 < tried && m.value == SampleAt(PiecesOf(b, Black), rand, tried - 1)
    ensures m.None? ==> tried == 20 * |PiecesOf(b, Black)|
    ensures forall j :: 0 <= j < tried && (m.None? || j < tried - 1) ==>
      !IsValidMove(b, Black, SampleAt(PiecesOf(b, Black), rand, j).from, SampleAt(PiecesOf(b, Black), rand, j).to)
    ensures (forall from: Pos, to: Pos :: !IsValidMove(b, Black, from, to)) ==> m.None?
  {
    var candidates := CollectPieces(b, Black);
    m, tried := SampleMove(b, Black, candidates, rand);
  }

  // ---------------------------------------------------------------------
  // The bot as the source runs it
  // ---------------------------------------------------------------------

  /**
   * What the source's bot does after white plays `from`-`to`: it collects
   * black's pieces on the new board `current`, but tests each sample with
   * the `isValidMove` of the earlier render, which sees the board `stale`
   * from before white's move and a side to move that is still white. Every
   * candidate then fails the colour check, and the bot never moves.
   */
  method ChooseBotMoveAsWritten(stale: Grid, current: Grid, ghost from: Pos, ghost to: Pos, rand: nat -> Unit)
    returns (m: Option<Move>, tried: nat)
    requires IsGrid(stale) && IsGrid(current)
    requires MoveApplied(stale, current, from, to)
    requires HasColor(stale[from.row, from.col], White)
    ensures m.None?
    ensures tried == 20 * |PiecesOf(current, Black)|
  {
    var candidates := CollectPieces(current, Black);
    StaleCheckRejects(stale, current, from, to);
    m, tried := SampleMove(stale, White, candidates, rand);
  }

  /** Every black square of `current` fails the stale check. */
  lemma StaleCheckRejects(stale: Grid, current: Grid, from: Pos, to: Pos)
    requires IsGrid(stale) && IsGrid(current)
    requires MoveApplied(stale, current, from, to)
    requires HasColor(stale[from.row, from.col], White)
    ensures forall p: Pos, t: Pos :: p in PiecesOf(current, Black) ==> !IsValidMove(stale, White, p, t)
  {
    PiecesOfExactly(current, Black);
    OpponentUntouched(stale, current, from, to, White);
  }

  /**
   * A concrete case: from the starting position white plays the pawn
   * (14,0)-(13,0). Black then has legal replies, such as the pawn
   * (1,0)-(2,0), yet the stale check rejects every black candidate.
   */
  lemma StaleBotExample(stale: Grid, current: Grid)
    requires IsGrid(stale) && IsGrid(current)
    requires IsInitial(stale)
    requires MoveApplied(stale, current, Pos(14, 0), Pos(13, 0))
    ensures IsValidMove(stale, White, Pos(14, 0), Pos(13, 0))
    ensures IsValidMove(current, Black, Pos(1, 0), Pos(2, 0))
    ensures Pos(1, 0) in PiecesOf(current, Black)
    ensures !IsValidMove(stale, White, Pos(1, 0), Pos(2, 0))
  {
    PiecesOfExactly(current, Black);
  }
}
